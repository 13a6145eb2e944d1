/** The saved form of the indexes (the `indexes.json` document) and the
    translation to and from it. JSON objects are maps with string keys, so
    integer document ids are written with `str` and read back with `int`. */
module Snapshots {
  import opened Wrappers
  import opened Text
  import opened Indexes

  datatype DocInfo = DocInfo(filename: string)

  datatype TermInfo = TermInfo(documentFrequency: int, postings: seq<int>)

  datatype Metadata = Metadata(totalDocuments: int, totalTerms: int)

  datatype Snapshot = Snapshot(
    metadata: Metadata,
    documentMapping: map<string, DocInfo>,
    invertedIndex: map<string, TermInfo>,
    positionalIndex: map<string, map<string, seq<int>>>)

  lemma IntToStringInjectiveAll()
    ensures forall a, b :: IntToString(a) == IntToString(b) ==> a == b
  {
    forall a, b | IntToString(a) == IntToString(b) ensures a == b {
      IntToStringInjective(a, b);
    }
  }

  /** `{str(k): v for k, v in m.items()}`. */
  function StringKeys(m: map<int, seq<int>>): (r: map<string, seq<int>>)
    ensures r.Keys == set k | k in m :: IntToString(k)
    ensures forall k :: k in m ==> r[IntToString(k)] == m[k]
  {
    IntToStringInjectiveAll();
    map k | k in m :: IntToString(k) := m[k]
  }

  function DocMapping(docIds: map<int, string>): (r: map<string, DocInfo>)
    ensures r.Keys == set k | k in docIds :: IntToString(k)
    ensures forall k :: k in docIds ==> r[IntToString(k)] == DocInfo(docIds[k])
  {
    IntToStringInjectiveAll();
    map k | k in docIds :: IntToString(k) := DocInfo(docIds[k])
  }

  /** The saved form of the indexes. The creation time and each document's
      path are not modelled. */
  function Save(ix: Index): (s: Snapshot)
    ensures s.metadata == Metadata(|ix.docIds|, |ix.inverted|)
    ensures s.invertedIndex.Keys == ix.inverted.Keys && s.positionalIndex.Keys == ix.positional.Keys
    ensures forall t :: t in s.invertedIndex ==>
      s.invertedIndex[t].documentFrequency == |s.invertedIndex[t].postings|
    ensures forall t :: t in ix.inverted ==> s.invertedIndex[t] == TermInfo(|ix.inverted[t]|, ix.inverted[t])
    ensures s.documentMapping == DocMapping(ix.docIds)
    ensures forall t :: t in ix.positional ==> s.positionalIndex[t] == StringKeys(ix.positional[t])
  {
    Snapshot(
      Metadata(|ix.docIds|, |ix.inverted|),
      DocMapping(ix.docIds),
      map t | t in ix.inverted :: TermInfo(|ix.inverted[t]|, ix.inverted[t]),
      SavedPositions(ix.positional))
  }

  /** `r` is what reading the string-keyed map `m` back with `int(key)` can give,
      using the keys in `keys`: every key parses, every parsed id is present,
      and each present id holds the value of some key that parses to it. When two
      keys parse to the same id, which one wins depends on the order of the keys. */
  ghost predicate UnkeyedOn<V>(m: map<string, V>, keys: set<string>, r: map<int, V>) {
    (forall k :: k in keys ==> k in m && ParseInt(k).Some? && ParseInt(k).value in r)
    && (forall d :: d in r ==> exists k :: k in keys && ParseInt(k) == Some(d) && r[d] == m[k])
  }

  /** Reading one more key `k` as `r[int(k)] = m[k]`. */
  lemma UnkeyedOnStep<V>(m: map<string, V>, keys: set<string>, r: map<int, V>, k: string)
    requires UnkeyedOn(m, keys, r) && k in m && ParseInt(k).Some?
    ensures UnkeyedOn(m, keys + {k}, r[ParseInt(k).value := m[k]])
  {
    StepKeys(m, keys, r, k);
    StepValues(m, keys, r, k);
  }

  lemma StepKeys<V>(m: map<string, V>, keys: set<string>, r: map<int, V>, k: string)
    requires UnkeyedOn(m, keys, r) && k in m && ParseInt(k).Some?
    ensures forall j :: j in keys + {k} ==> j in m && ParseInt(j).Some? && ParseInt(j).value in r[ParseInt(k).value := m[k]]
  {
    forall j | j in keys + {k} ensures j in m && ParseInt(j).Some? && ParseInt(j).value in r[ParseInt(k).value := m[k]] {
      if j != k {
        assert j in keys;
      }
    }
  }

  lemma StepValues<V>(m: map<string, V>, keys: set<string>, r: map<int, V>, k: string)
    requires UnkeyedOn(m, keys, r) && k in m && ParseInt(k).Some?
    ensures var r' := r[ParseInt(k).value := m[k]];
      forall d :: d in r' ==> exists j :: j in keys + {k} && ParseInt(j) == Some(d) && r'[d] == m[j]
  {
    var n := ParseInt(k).value;
    var r' := r[n := m[k]];
    forall d | d in r' ensures exists j :: j in keys + {k} && ParseInt(j) == Some(d) && r'[d] == m[j] {
      if d == n {
        assert k in keys + {k} && ParseInt(k) == Some(d) && r'[d] == m[k];
      } else {
        var j :| j in keys && ParseInt(j) == Some(d) && r[d] == m[j];
        assert j in keys + {k} && r'[d] == m[j];
      }
    }
  }

  ghost predicate Unkeyed<V>(m: map<string, V>, r: map<int, V>) {
    UnkeyedOn(m, m.Keys, r)
  }

  function Filenames(mapping: map<string, DocInfo>): (r: map<string, string>)
    ensures r.Keys == mapping.Keys
    ensures forall k :: k in mapping ==> r[k] == mapping[k].filename
  {
    map k | k in mapping :: mapping[k].filename
  }

  predicate KeysParse<V>(m: map<string, V>) {
    forall k :: k in m ==> ParseInt(k).Some?
  }

  /** Loading reaches its end without an `int()` failure. */
  predicate Loadable(s: Snapshot) {
    KeysParse(s.documentMapping) && forall t :: t in s.positionalIndex ==> KeysParse(s.positionalIndex[t])
  }

  /** The postings as loaded: `document_frequency` is not read. */
  function LoadedPostings(s: Snapshot): (r: map<string, seq<int>>)
    ensures r.Keys == s.invertedIndex.Keys
    ensures forall t :: t in r ==> r[t] == s.invertedIndex[t].postings
  {
    map t | t in s.invertedIndex :: s.invertedIndex[t].postings
  }

  /** `ix` is a possible result of loading `s`. A term whose saved position map is
      empty is never touched by the loading loop, so it does not come back. */
  ghost predicate LoadsFrom(s: Snapshot, ix: Index) {
    LoadedAs(s.documentMapping, LoadedPostings(s), s.positionalIndex, ix)
  }

  /** The parts of `LoadsFrom`: the document map, the postings as loaded and
      the position maps. */
  ghost predicate LoadedAs(mapping: map<string, DocInfo>, postings: map<string, seq<int>>,
                           positions: map<string, map<string, seq<int>>>, ix: Index) {
    Unkeyed(Filenames(mapping), ix.docIds)
    && ix.inverted == postings
    && (forall t :: t in ix.positional <==> t in positions && positions[t] != map[])
    && (forall t :: t in ix.positional ==> Unkeyed(positions[t], ix.positional[t]))
  }

  /** Reading back a map whose keys were written with `str` can give the map itself. */
  lemma UnkeyedStringKeys<V>(m: map<int, V>, sm: map<string, V>)
    requires sm.Keys == set k | k in m :: IntToString(k)
    requires forall k :: k in m ==> sm[IntToString(k)] == m[k]
    ensures Unkeyed(sm, m)
  {
    forall k | k in sm ensures k in sm && ParseInt(k).Some? && ParseInt(k).value in m {
      var d :| d in m && IntToString(d) == k;
      IntToStringRoundTrip(d);
    }
    forall d | d in m ensures exists k :: k in sm.Keys && ParseInt(k) == Some(d) && m[d] == sm[k] {
      IntToStringRoundTrip(d);
      assert IntToString(d) in sm.Keys;
    }
  }

  lemma UnkeyedEntry<V>(m: map<int, V>, sm: map<string, V>, r: map<int, V>, d: int)
    requires sm.Keys == set k | k in m :: IntToString(k)
    requires forall k :: k in m ==> sm[IntToString(k)] == m[k]
    requires d in r && exists k :: k in sm && ParseInt(k) == Some(d) && r[d] == sm[k]
    ensures d in m && r[d] == m[d]
  {
    var k :| k in sm && ParseInt(k) == Some(d) && r[d] == sm[k];
    var d' :| d' in m && IntToString(d') == k;
    IntToStringRoundTrip(d');
  }

  /** ... and nothing else. */
  lemma UnkeyedStringKeysOnly<V>(m: map<int, V>, sm: map<string, V>, r: map<int, V>)
    requires sm.Keys == set k | k in m :: IntToString(k)
    requires forall k :: k in m ==> sm[IntToString(k)] == m[k]
    requires Unkeyed(sm, r)
    ensures r == m
  {
    forall d | d in r ensures d in m && r[d] == m[d] {
      UnkeyedEntry(m, sm, r, d);
    }
    forall d | d in m ensures d in r {
      IntToStringRoundTrip(d);
      assert IntToString(d) in sm;
    }
  }

  /** The saved document mapping reads back as the document map, and only as it. */
  lemma DocIdsRoundTrip(docIds: map<int, string>, r: map<int, string>)
    ensures Unkeyed(Filenames(DocMapping(docIds)), docIds)
    ensures Unkeyed(Filenames(DocMapping(docIds)), r) ==> r == docIds
  {
    var fm := Filenames(DocMapping(docIds));
    assert fm.Keys == set k | k in docIds :: IntToString(k);
    UnkeyedStringKeys(docIds, fm);
    if Unkeyed(fm, r) {
      UnkeyedStringKeysOnly(docIds, fm, r);
    }
  }

  function SavedPositions(P: map<string, map<int, seq<int>>>): (r: map<string, map<string, seq<int>>>)
    ensures r.Keys == P.Keys
    ensures forall t :: t in P ==> r[t] == StringKeys(P[t])
  {
    map t | t in P :: StringKeys(P[t])
  }

  /** The saved position maps read back as the positional index ... */
  lemma PositionsRoundTrip(P: map<string, map<int, seq<int>>>)
    requires forall t :: t in P ==> P[t] != map[]
    ensures var sp := SavedPositions(P);
      (forall t :: t in P <==> t in sp && sp[t] != map[]) &&
      (forall t :: t in P ==> Unkeyed(sp[t], P[t]))
  {
    var sp := SavedPositions(P);
    forall t | t in P ensures sp[t] != map[] && Unkeyed(sp[t], P[t]) {
      var inner := P[t];
      EmptyOrMemberIds(inner);
      var d :| d in inner;
      assert IntToString(d) in sp[t];
      UnkeyedStringKeys(inner, sp[t]);
    }
  }

  /** ... and only as it. */
  lemma PositionsRoundTripOnly(P: map<string, map<int, seq<int>>>, sp: map<string, map<string, seq<int>>>, r: map<string, map<int, seq<int>>>)
    requires forall t :: t in P ==> P[t] != map[]
    requires sp == SavedPositions(P)
    requires forall t :: t in r <==> t in sp && sp[t] != map[]
    requires forall t :: t in r ==> Unkeyed(sp[t], r[t])
    ensures r == P
  {
    assert r.Keys == P.Keys by {
      SavedPositionsNonEmpty(P);
    }
    assert forall t :: t in r ==> r[t] == P[t] by {
      PositionsEntriesOnly(P, r);
    }
    SameMaps(r, P);
  }

  lemma SameMaps(r: map<string, map<int, seq<int>>>, P: map<string, map<int, seq<int>>>)
    requires r.Keys == P.Keys
    requires forall t :: t in r ==> r[t] == P[t]
    ensures r == P
  {
  }

  lemma PositionsEntriesOnly(P: map<string, map<int, seq<int>>>, r: map<string, map<int, seq<int>>>)
    requires r.Keys == P.Keys
    requires forall t :: t in r ==> Unkeyed(SavedPositions(P)[t], r[t])
    ensures forall t :: t in r ==> r[t] == P[t]
  {
    forall t | t in r ensures r[t] == P[t] {
      InnerRoundTripOnly(P[t], r[t]);
    }
  }

  lemma InnerRoundTripOnly(inner: map<int, seq<int>>, r: map<int, seq<int>>)
    requires Unkeyed(StringKeys(inner), r)
    ensures r == inner
  {
    UnkeyedStringKeysOnly(inner, StringKeys(inner), r);
  }

  lemma SavedPositionsNonEmpty(P: map<string, map<int, seq<int>>>)
    requires forall t :: t in P ==> P[t] != map[]
    ensures forall t :: t in P ==> t in SavedPositions(P) && SavedPositions(P)[t] != map[]
  {
    forall t | t in P ensures SavedPositions(P)[t] != map[] {
      var inner := P[t];
      EmptyOrMemberIds(inner);
      var d :| d in inner;
      assert IntToString(d) in SavedPositions(P)[t];
    }
  }

  lemma EmptyOrMemberIds(m: map<int, seq<int>>)
    ensures m == map[] || exists d :: d in m
  {
    if !exists d :: d in m {
      assert m.Keys == {};
    }
  }

  /** Every key a save writes parses back. */
  lemma SavedIsLoadable(ix: Index)
    ensures Loadable(Save(ix))
  {
    var s := Save(ix);
    DocIdsRoundTrip(ix.docIds, ix.docIds);
    forall t | t in s.positionalIndex ensures KeysParse(s.positionalIndex[t]) {
      UnkeyedStringKeys(ix.positional[t], s.positionalIndex[t]);
    }
  }

  /** If no term has an empty position map, loading what was saved restores the
      document map, the postings and the positions exactly, and nothing else. */
  lemma SaveLoadRoundTrip(ix: Index, ix': Index)
    requires forall t :: t in ix.positional ==> ix.positional[t] != map[]
    ensures LoadsFrom(Save(ix), ix)
    ensures LoadsFrom(Save(ix), ix') ==> ix' == ix
  {
    var s := Save(ix);
    DocIdsRoundTrip(ix.docIds, ix'.docIds);
    PositionsRoundTrip(ix.positional);
    assert ix.inverted == LoadedPostings(s);
    if LoadsFrom(s, ix') {
      PositionsRoundTripOnly(ix.positional, s.positionalIndex, ix'.positional);
    }
  }

  /** A well-formed index has no empty position map, so it survives a save and
      a load unchanged. */
  lemma WellFormedRoundTrip(ix: Index, ix': Index)
    requires WellFormed(ix)
    ensures LoadsFrom(Save(ix), ix)
    ensures LoadsFrom(Save(ix), ix') ==> ix' == ix
  {
    forall t | t in ix.positional ensures ix.positional[t] != map[] {
      var ps := ix.inverted[t];
      assert ps[0] in ps;
      assert ps[0] in ix.positional[t];
    }
    SaveLoadRoundTrip(ix, ix');
  }

  /** The saved `document_frequency` plays no part in loading. */
  lemma LoadIgnoresFrequency(s: Snapshot, s': Snapshot, ix: Index)
    requires s'.documentMapping == s.documentMapping && s'.positionalIndex == s.positionalIndex
    requires s'.invertedIndex.Keys == s.invertedIndex.Keys
    requires forall t :: t in s.invertedIndex ==> s'.invertedIndex[t].postings == s.invertedIndex[t].postings
    ensures LoadsFrom(s, ix) <==> LoadsFrom(s', ix)
  {
    assert LoadedPostings(s) == LoadedPostings(s');
  }
}
