// The round-robin cache of found keys (mxml_cache.c).
module Cache {
  import opened Chars
  import opened KeyPath
  import opened DocFind
  import opened MxmlInt

  method CacheGet(m: Mxml, ekey: string) returns (r: Option<Span>)
    requires m.Valid() && ekey != ""
    ensures r.Some? <==> m.Resident(ekey)
    ensures r.Some? ==> r == FindNoEdit(m.text, ekey)
  {
    hide FindNoEdit;
    if |ekey| > KEY_MAX {
      return None;
    }
    for i := 0 to CACHE_MAX
      invariant forall j :: 0 <= j < i ==> m.cache[j].key != ekey
    {
      if m.cache[i].key == ekey {
        return Some(m.cache[i].span);
      }
    }
    r := None;
  }

  method CacheSet(m: Mxml, ekey: string, span: Span)
    requires m.Valid() && ekey != "" && !m.Resident(ekey)
    requires FindNoEdit(m.text, ekey) == Some(span)
    modifies m`cacheNext, m.cache
    ensures m.Valid()
    ensures forall k :: k != ekey && m.Resident(k) ==> old(m.Resident(k))
    ensures |ekey| <= KEY_MAX ==> m.Resident(ekey)
    ensures
      if |ekey| <= KEY_MAX
      then m.cache[..] == old(m.cache[..])[old(m.cacheNext) := Slot(ekey, span)] &&
           m.cacheNext == (old(m.cacheNext) + 1) % CACHE_MAX
      else m.cache[..] == old(m.cache[..]) && m.cacheNext == old(m.cacheNext)
  {
    hide FindNoEdit;
    if |ekey| <= KEY_MAX {
      m.cache[m.cacheNext] := Slot(ekey, span);
      assert m.cache[old(m.cacheNext)].key == ekey;
      m.cacheNext := (m.cacheNext + 1) % CACHE_MAX;
    }
  }
}
