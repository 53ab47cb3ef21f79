/** What every tier promises of VisitEntries (include/tidepool/store/tier.h). */
module TierListing {
  import opened Blocks

  ghost function KeysOf(entries: seq<(BlockKey, BlockInfo)>): set<BlockKey> {
    set i | 0 <= i < |entries| :: entries[i].0
  }

  /** A listing names each key once, with its own information. */
  ghost predicate Lists(entries: seq<(BlockKey, BlockInfo)>, infos: map<BlockKey, BlockInfo>) {
    && KeysOf(entries) == infos.Keys
    && (forall i, j :: 0 <= i < j < |entries| ==> entries[i].0 != entries[j].0)
    && (forall i :: 0 <= i < |entries| ==> entries[i].0 in infos && entries[i].1 == infos[entries[i].0])
  }

  lemma KeysOfMore(entries: seq<(BlockKey, BlockInfo)>, key: BlockKey, info: BlockInfo)
    ensures KeysOf(entries + [(key, info)]) == KeysOf(entries) + {key}
  {
    var more := entries + [(key, info)];
    assert more[|entries|].0 == key;
    forall k | k in KeysOf(entries)
      ensures k in KeysOf(more)
    {
      var i :| 0 <= i < |entries| && entries[i].0 == k;
      assert more[i].0 == k;
    }
  }

  lemma ListsMore(entries: seq<(BlockKey, BlockInfo)>, infos: map<BlockKey, BlockInfo>, key: BlockKey, info: BlockInfo)
    requires Lists(entries, infos) && key !in infos
    ensures Lists(entries + [(key, info)], infos[key := info])
  {
    KeysOfMore(entries, key, info);
  }

  lemma ListsNext(entries: seq<(BlockKey, BlockInfo)>, infos: map<BlockKey, BlockInfo>,
                  i: nat, listed: map<BlockKey, BlockInfo>)
    requires Lists(entries, infos) && i < |entries| && Lists(entries[..i], listed)
    ensures entries[i].0 !in listed && Lists(entries[..i + 1], listed[entries[i].0 := entries[i].1])
  {
    assert entries[..i + 1] == entries[..i] + [entries[i]];
    assert entries[i].0 !in KeysOf(entries[..i]);
    ListsMore(entries[..i], listed, entries[i].0, entries[i].1);
  }

  lemma ListsUnique(entries: seq<(BlockKey, BlockInfo)>, a: map<BlockKey, BlockInfo>, b: map<BlockKey, BlockInfo>)
    requires Lists(entries, a) && Lists(entries, b)
    ensures a == b
  {
    forall k | k in a
      ensures k in b && a[k] == b[k]
    {
      assert k in KeysOf(entries);
      var i :| 0 <= i < |entries| && entries[i].0 == k;
    }
    assert a.Keys == b.Keys;
  }
}
