// The data structures of mxml_int.h: edits, the lookup cache and the editor.
module MxmlInt {
  import opened Chars
  import opened KeyPath
  import opened DocFind

  const KEY_MAX := 256
  const CACHE_MAX := 32

  datatype EditOp = EditDelete | EditSet | EditAppend

  // An edit record. The value of a deletion is empty.
  datatype Edit = Edit(op: EditOp, key: string, value: string)

  datatype Errno = ENOENT | EEXIST | EINVAL | EPERM | ENOMEM

  // A previously found key and its content; the key of an unused slot is empty.
  datatype Slot = Slot(key: string, span: Span)

  class Mxml {
    const text: string
    var edits: seq<Edit>       // newest first
    const cache: array<Slot>
    var cacheNext: nat

    ghost predicate Resident(key: string)
      reads cache
    {
      exists i :: 0 <= i < cache.Length && cache[i].key == key
    }

    // Every used slot holds what a search without the cache would find, and no
    // key is held twice.
    ghost predicate Valid()
      reads this, cache
    {
      && cache.Length == CACHE_MAX && cacheNext < CACHE_MAX
      && (forall i :: 0 <= i < cache.Length && cache[i].key != "" ==>
            && |cache[i].key| <= KEY_MAX
            && FindNoEdit(text, cache[i].key) == Some(cache[i].span))
      && (forall i, j :: 0 <= i < j < cache.Length && cache[i].key != "" ==> cache[i].key != cache[j].key)
    }

    // mxml_new and cache_init
    constructor (text: string)
      ensures Valid() && fresh(cache) && this.text == text && edits == []
      ensures forall k :: k != "" ==> !Resident(k)
    {
      this.text, this.edits := text, [];
      cache := new Slot[CACHE_MAX](_ => Slot("", Span(0, 0)));
      cacheNext := 0;
    }
  }
}
