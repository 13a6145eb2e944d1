/** The engine's three maps and how a build fills them. A document's id is
    its index in the directory listing, so skipped entries leave gaps. */
module Indexes {
  import opened Wrappers
  import opened Text
  import opened Sorting
  import opened Normalize

  /** One directory entry: its name, and its text when it could be read. */
  datatype Entry = Entry(name: string, content: Option<string>)

  /** doc id -> file name; term -> posting list; term -> doc id -> positions. */
  datatype Index = Index(
    docIds: map<int, string>,
    inverted: map<string, seq<int>>,
    positional: map<string, map<int, seq<int>>>)

  const Empty: Index := Index(map[], map[], map[])

  /** `inverted_index.get(t, [])`. */
  function Postings(ix: Index, t: string): seq<int> {
    if t in ix.inverted then ix.inverted[t] else []
  }

  /** `positional_index[t][d]`, reading a missing entry as the empty list. */
  function Positions(ix: Index, t: string, d: int): seq<int> {
    if t in ix.positional && d in ix.positional[t] then ix.positional[t][d] else []
  }

  /** An entry a build indexes: a `.txt` name whose content could be read. */
  predicate IsIndexed(e: Entry) {
    EndsWith(e.name, ".txt") && e.content.Some?
  }

  function DocOccs(nz: Normalizer, e: Entry): seq<Occurrence>
    requires e.content.Some?
  {
    Preprocess(nz, e.content.value)
  }

  /** Appending one position: `positional_index[term][doc_id].append(position)`. */
  function AddOccurrence(P: map<string, map<int, seq<int>>>, d: int, o: Occurrence): map<string, map<int, seq<int>>> {
    var inner := if o.term in P then P[o.term] else map[];
    var ps := if d in inner then inner[d] else [];
    P[o.term := inner[d := ps + [o.pos]]]
  }

  /** The positional map after appending every pair of one document, in order. */
  function AddAll(P: map<string, map<int, seq<int>>>, d: int, occs: seq<Occurrence>): map<string, map<int, seq<int>>> {
    if occs == [] then P
    else AddOccurrence(AddAll(P, d, occs[..|occs| - 1]), d, occs[|occs| - 1])
  }

  /** `positional_index[t]` before a document is added, as a map. */
  function Inner(P: map<string, map<int, seq<int>>>, t: string): map<int, seq<int>> {
    if t in P then P[t] else map[]
  }

  /** `R` is `P` with, under each stem of `occs`, the entry `d -> PositionsOf(t, occs)`
      added, and nothing else changed. */
  ghost predicate AddedFresh(R: map<string, map<int, seq<int>>>, P: map<string, map<int, seq<int>>>, d: int, occs: seq<Occurrence>) {
    R.Keys == P.Keys + Stems(occs) &&
    forall t :: t in R ==>
      R[t] == Inner(P, t) + (if t in Stems(occs) then map[d := PositionsOf(t, occs)] else map[])
  }

  lemma UpdateMerged(A: map<int, seq<int>>, B: map<int, seq<int>>, d: int, x: seq<int>)
    requires B.Keys <= {d}
    ensures (A + B)[d := x] == A + map[d := x]
  {
  }

  lemma AddOccurrenceFresh(R: map<string, map<int, seq<int>>>, P: map<string, map<int, seq<int>>>, d: int, occs: seq<Occurrence>, o: Occurrence)
    requires forall t :: t in P ==> d !in P[t]
    requires AddedFresh(R, P, d, occs)
    ensures AddedFresh(AddOccurrence(R, d, o), P, d, occs + [o])
  {
    var occs' := occs + [o];
    assert occs'[..|occs|] == occs;
    var R' := AddOccurrence(R, d, o);
    var u := o.term;
    assert Stems(occs') == Stems(occs) + {u};
    forall t | t in R'
      ensures R'[t] == Inner(P, t) + (if t in Stems(occs') then map[d := PositionsOf(t, occs')] else map[])
    {
      if t == u {
        FreshAtStem(R, P, d, occs, o);
      } else {
        assert R'[t] == R[t];
        assert PositionsOf(t, occs') == PositionsOf(t, occs);
      }
    }
  }

  /** The stem of the appended pair gets one more position for `d`. */
  lemma FreshAtStem(R: map<string, map<int, seq<int>>>, P: map<string, map<int, seq<int>>>, d: int, occs: seq<Occurrence>, o: Occurrence)
    requires forall t :: t in P ==> d !in P[t]
    requires AddedFresh(R, P, d, occs)
    ensures AddOccurrence(R, d, o)[o.term] == Inner(P, o.term) + map[d := PositionsOf(o.term, occs + [o])]
  {
    var u := o.term;
    var occs' := occs + [o];
    assert occs'[..|occs|] == occs;
    var B: map<int, seq<int>> := if u in Stems(occs) then map[d := PositionsOf(u, occs)] else map[];
    var inner := Inner(P, u) + B;
    assert inner == if u in R then R[u] else map[];
    var ps := if d in inner then inner[d] else [];
    assert d !in Inner(P, u);
    assert ps == PositionsOf(u, occs);
    assert PositionsOf(u, occs') == ps + [o.pos];
    UpdateMerged(Inner(P, u), B, d, ps + [o.pos]);
  }

  /** For a document not yet in the map, appending its pairs adds, under each of
      its stems, exactly the entry `d -> PositionsOf(t, occs)` and changes nothing else. */
  lemma {:induction false} AddAllFresh(P: map<string, map<int, seq<int>>>, d: int, occs: seq<Occurrence>)
    requires forall t :: t in P ==> d !in P[t]
    ensures AddedFresh(AddAll(P, d, occs), P, d, occs)
  {
    if occs == [] {
      assert forall t :: t in P ==> P[t] == Inner(P, t) + map[];
    } else {
      var front := occs[..|occs| - 1];
      AddAllFresh(P, d, front);
      AddOccurrenceFresh(AddAll(P, d, front), P, d, front, occs[|occs| - 1]);
      assert front + [occs[|occs| - 1]] == occs;
    }
  }

  /** Appending `d` once to the posting list of every term in `T`. */
  function AddDocToTerms(I: map<string, seq<int>>, d: int, T: set<string>): (R: map<string, seq<int>>)
    ensures R.Keys == I.Keys + T
    ensures forall t :: t in R ==> R[t] == (if t in I then I[t] else []) + (if t in T then [d] else [])
  {
    map t | t in I.Keys + T :: (if t in I then I[t] else []) + (if t in T then [d] else [])
  }

  /** Adding a document under no term changes nothing. */
  lemma AddDocToTermsNone(I: map<string, seq<int>>, d: int)
    ensures AddDocToTerms(I, d, {}) == I
  {
    var R := AddDocToTerms(I, d, {});
    assert R.Keys == I.Keys;
    forall t | t in R ensures R[t] == I[t] {
      assert I[t] + [] == I[t];
    }
  }

  /** A map that extends each posting list of `T` by `d` and changes nothing else is the update. */
  lemma AddDocToTermsIs(I: map<string, seq<int>>, d: int, T: set<string>, R: map<string, seq<int>>)
    requires R.Keys == I.Keys + T
    requires forall t :: t in R ==> R[t] == (if t in I then I[t] else []) + (if t in T then [d] else [])
    ensures R == AddDocToTerms(I, d, T)
  {
  }

  /** Terms can be added to the posting lists one at a time, in any order. */
  lemma AddDocToTermsStep(I: map<string, seq<int>>, d: int, done: set<string>, t: string)
    requires t !in done
    ensures var J := AddDocToTerms(I, d, done);
      AddDocToTerms(I, d, done + {t}) == J[t := (if t in J then J[t] else []) + [d]]
  {
    var J := AddDocToTerms(I, d, done);
    var K := AddDocToTerms(I, d, done + {t});
    var J' := J[t := (if t in J then J[t] else []) + [d]];
    assert K.Keys == J'.Keys;
    forall k | k in K ensures K[k] == J'[k] {
    }
  }

  /** Indexing one successfully read document under id `d`. */
  function AddDoc(ix: Index, d: int, name: string, occs: seq<Occurrence>): Index {
    Index(ix.docIds[d := name], AddDocToTerms(ix.inverted, d, Stems(occs)), AddAll(ix.positional, d, occs))
  }

  /** Names of the `.txt` entries among the first `n` whose content could not be read. */
  function FailedUpTo(E: seq<Entry>, n: nat): seq<string>
    requires n <= |E|
  {
    if n == 0 then []
    else FailedUpTo(E, n - 1) + (if EndsWith(E[n - 1].name, ".txt") && E[n - 1].content.None? then [E[n - 1].name] else [])
  }

  /** The agreement between the two term indexes that every build keeps: posting
      lists are non-empty and strictly increasing, a document is in a term's
      postings exactly when it has a position list for the term, and every
      position list is non-empty, strictly increasing and belongs to a known document. */
  ghost predicate WellFormed(ix: Index) {
    ix.inverted.Keys == ix.positional.Keys
    && (forall t :: t in ix.inverted ==> |ix.inverted[t]| > 0 && Increasing(ix.inverted[t]))
    && (forall t, d :: t in ix.inverted ==> (d in ix.inverted[t] <==> d in ix.positional[t]))
    && (forall t, d :: t in ix.positional && d in ix.positional[t] ==>
         d in ix.docIds && |ix.positional[t][d]| > 0 && Increasing(ix.positional[t][d]))
  }

  /** What each directory entry contributes: the preprocessed text of an indexed
      entry, nothing for any other. Positions within each text strictly increase. */
  function Documents(nz: Normalizer, E: seq<Entry>): (r: seq<Option<seq<Occurrence>>>)
    ensures |r| == |E|
    ensures forall d :: 0 <= d < |E| ==> (r[d].Some? <==> IsIndexed(E[d]))
    ensures forall d :: 0 <= d < |E| && r[d].Some? ==> PositionsIncrease(r[d].value)
  {
    seq(|E|, d requires 0 <= d < |E| => if IsIndexed(E[d]) then Some(DocOccs(nz, E[d])) else None)
  }

  /** The indexes after the first `n` entries, given what each contributes. */
  function BuildUpTo(E: seq<Entry>, docs: seq<Option<seq<Occurrence>>>, n: nat): Index
    requires n <= |E| == |docs|
  {
    if n == 0 then Empty
    else
      var ix := BuildUpTo(E, docs, n - 1);
      match docs[n - 1]
      case Some(occs) => AddDoc(ix, n - 1, E[n - 1].name, occs)
      case None => ix
  }

  /** One more entry: indexed when it contributes a text, skipped otherwise. */
  lemma BuildUpToNext(E: seq<Entry>, docs: seq<Option<seq<Occurrence>>>, n: nat)
    requires n < |E| == |docs|
    ensures docs[n].Some? ==> BuildUpTo(E, docs, n + 1) == AddDoc(BuildUpTo(E, docs, n), n, E[n].name, docs[n].value)
    ensures docs[n].None? ==> BuildUpTo(E, docs, n + 1) == BuildUpTo(E, docs, n)
  {
  }

  /** The ids recorded after `n` entries are all below `n`, so each indexed
      entry adds one document to the count. */
  lemma {:induction false} BuildUpToCount(E: seq<Entry>, docs: seq<Option<seq<Occurrence>>>, n: nat)
    requires n < |E| == |docs|
    ensures forall e :: e in BuildUpTo(E, docs, n).docIds ==> e < n
    ensures |BuildUpTo(E, docs, n + 1).docIds| == |BuildUpTo(E, docs, n).docIds| + (if docs[n].Some? then 1 else 0)
  {
    if n > 0 {
      BuildUpToCount(E, docs, n - 1);
    }
    var m := BuildUpTo(E, docs, n).docIds;
    if docs[n].Some? {
      assert n !in m;
      assert BuildUpTo(E, docs, n + 1).docIds == m[n := E[n].name];
    }
  }

  /** What one entry does to the indexes: an indexed entry is added under
      id `d`, any other leaves them as they are. */
  function BuildStep(nz: Normalizer, ix: Index, d: int, e: Entry): Index {
    if IsIndexed(e) then AddDoc(ix, d, e.name, DocOccs(nz, e)) else ix
  }

  /** The build after one more entry is that entry's step; an indexed entry
      adds one document, and an unreadable `.txt` entry one failed name. */
  lemma BuildStepNext(nz: Normalizer, E: seq<Entry>, docs: seq<Option<seq<Occurrence>>>, n: nat)
    requires n < |E| && docs == Documents(nz, E)
    ensures BuildUpTo(E, docs, n + 1) == BuildStep(nz, BuildUpTo(E, docs, n), n, E[n])
    ensures |BuildUpTo(E, docs, n + 1).docIds| == |BuildUpTo(E, docs, n).docIds| + (if IsIndexed(E[n]) then 1 else 0)
    ensures FailedUpTo(E, n + 1) == FailedUpTo(E, n) + (if EndsWith(E[n].name, ".txt") && !IsIndexed(E[n]) then [E[n].name] else [])
  {
    BuildUpToNext(E, docs, n);
    BuildUpToCount(E, docs, n);
  }

  /** The indexes a build from scratch produces. */
  function Built(nz: Normalizer, E: seq<Entry>): Index {
    BuildUpTo(E, Documents(nz, E), |E|)
  }

  /** Whether the index has a position list for term `t` in document `d`. */
  ghost predicate HasList(ix: Index, t: string, d: int) {
    t in ix.positional && d in ix.positional[t]
  }

  /** Whether entry `d`, among the first `n`, was indexed and contains stem `t`. */
  ghost predicate DocHas(docs: seq<Option<seq<Occurrence>>>, n: nat, t: string, d: int) {
    0 <= d < n && d < |docs| && docs[d].Some? && t in Stems(docs[d].value)
  }

  /** The reference description of the indexes over the first `n` entries, given
      what each entry contributes: which ids exist, which (term, document) pairs
      have position lists, and what those lists are. */
  ghost predicate Describes(E: seq<Entry>, docs: seq<Option<seq<Occurrence>>>, n: nat, ix: Index)
    requires n <= |E| == |docs|
  {
    (forall d :: d in ix.docIds <==> 0 <= d < n && docs[d].Some?)
    && (forall d :: d in ix.docIds ==> 0 <= d < n && ix.docIds[d] == E[d].name)
    && (forall t, d :: HasList(ix, t, d) <==> DocHas(docs, n, t, d))
    && (forall t, d :: HasList(ix, t, d) ==>
         0 <= d < n && docs[d].Some? && ix.positional[t][d] == PositionsOf(t, docs[d].value))
  }

  /** Under a well-formed index whose ids are all below `d`, no position list exists yet for `d`. */
  lemma FreshId(ix: Index, d: int)
    requires WellFormed(ix)
    requires forall e :: e in ix.docIds ==> e < d
    ensures forall t :: t in ix.positional ==> d !in ix.positional[t]
  {
    forall t | t in ix.positional ensures d !in ix.positional[t] {
      assert d in ix.positional[t] ==> d in ix.docIds;
    }
  }

  lemma StepPostings(ix: Index, d: int, T: set<string>)
    requires WellFormed(ix)
    requires forall e :: e in ix.docIds ==> e < d
    ensures var I := AddDocToTerms(ix.inverted, d, T);
      forall t :: t in I ==> |I[t]| > 0 && Increasing(I[t])
  {
    var I := AddDocToTerms(ix.inverted, d, T);
    forall t | t in I ensures |I[t]| > 0 && Increasing(I[t]) {
      if t in ix.inverted {
        var ps := ix.inverted[t];
        forall i | 0 <= i < |ps| ensures ps[i] < d {
          assert ps[i] in ps;
          assert ps[i] in ix.positional[t];
        }
      }
    }
  }

  lemma StepAgree(ix: Index, d: int, occs: seq<Occurrence>)
    requires WellFormed(ix)
    requires forall t :: t in ix.positional ==> d !in ix.positional[t]
    requires AddedFresh(AddAll(ix.positional, d, occs), ix.positional, d, occs)
    ensures var I, P := AddDocToTerms(ix.inverted, d, Stems(occs)), AddAll(ix.positional, d, occs);
      I.Keys == P.Keys && forall t, e :: t in I ==> (e in I[t] <==> e in P[t])
  {
    var I, P := AddDocToTerms(ix.inverted, d, Stems(occs)), AddAll(ix.positional, d, occs);
    forall t, e | t in I ensures e in I[t] <==> e in P[t] {
      if e != d {
        assert e in I[t] <==> t in ix.inverted && e in ix.inverted[t];
      }
    }
  }

  lemma StepPositions(ix: Index, d: int, name: string, occs: seq<Occurrence>)
    requires WellFormed(ix)
    requires forall t :: t in ix.positional ==> d !in ix.positional[t]
    requires PositionsIncrease(occs)
    requires AddedFresh(AddAll(ix.positional, d, occs), ix.positional, d, occs)
    ensures var P := AddAll(ix.positional, d, occs);
      forall t, e :: t in P && e in P[t] ==> e in ix.docIds[d := name] && |P[t][e]| > 0 && Increasing(P[t][e])
  {
    var P := AddAll(ix.positional, d, occs);
    forall t, e | t in P && e in P[t]
      ensures e in ix.docIds[d := name] && |P[t][e]| > 0 && Increasing(P[t][e])
    {
      var A := Inner(ix.positional, t);
      if e == d {
        assert d !in A;
        assert t in Stems(occs);
        assert P[t][d] == PositionsOf(t, occs);
        PositionsOfIncreasing(t, occs);
      } else {
        assert P[t][e] == A[e];
      }
    }
  }

  /** Indexing a document whose id is above every existing one keeps the index well formed. */
  lemma StepWellFormed(ix: Index, d: int, name: string, occs: seq<Occurrence>)
    requires WellFormed(ix)
    requires forall e :: e in ix.docIds ==> e < d
    requires PositionsIncrease(occs)
    ensures WellFormed(AddDoc(ix, d, name, occs))
  {
    FreshId(ix, d);
    AddAllFresh(ix.positional, d, occs);
    StepPostings(ix, d, Stems(occs));
    StepAgree(ix, d, occs);
    StepPositions(ix, d, name, occs);
  }

  lemma StepHasList(docs: seq<Option<seq<Occurrence>>>, n: nat, ix: Index, name: string)
    requires n < |docs| && docs[n].Some?
    requires forall t :: t in ix.positional ==> n !in ix.positional[t]
    requires forall t, d :: HasList(ix, t, d) <==> DocHas(docs, n, t, d)
    ensures var ix' := AddDoc(ix, n, name, docs[n].value);
      forall t, d :: HasList(ix', t, d) <==> DocHas(docs, n + 1, t, d)
  {
    AddAllFresh(ix.positional, n, docs[n].value);
    var occs := docs[n].value;
    var ix' := AddDoc(ix, n, name, occs);
    var P, P' := ix.positional, ix'.positional;
    forall t, d ensures HasList(ix', t, d) <==> DocHas(docs, n + 1, t, d) {
      var B: map<int, seq<int>> := if t in Stems(occs) then map[n := PositionsOf(t, occs)] else map[];
      assert t in P' ==> P'[t] == Inner(P, t) + B;
      assert t in P' <==> t in P || t in Stems(occs);
      if d == n {
        assert n !in Inner(P, t);
        assert DocHas(docs, n + 1, t, n) <==> t in Stems(occs);
      } else {
        assert HasList(ix', t, d) <==> HasList(ix, t, d);
        assert DocHas(docs, n + 1, t, d) <==> DocHas(docs, n, t, d);
      }
    }
  }

  lemma StepLists(docs: seq<Option<seq<Occurrence>>>, n: nat, ix: Index, name: string)
    requires n < |docs| && docs[n].Some?
    requires forall t :: t in ix.positional ==> n !in ix.positional[t]
    requires forall t, d :: HasList(ix, t, d) ==>
      0 <= d < n && docs[d].Some? && ix.positional[t][d] == PositionsOf(t, docs[d].value)
    ensures var ix' := AddDoc(ix, n, name, docs[n].value);
      forall t, d :: HasList(ix', t, d) ==>
        0 <= d < n + 1 && docs[d].Some? && ix'.positional[t][d] == PositionsOf(t, docs[d].value)
  {
    AddAllFresh(ix.positional, n, docs[n].value);
    var ix' := AddDoc(ix, n, name, docs[n].value);
    forall t, d | HasList(ix', t, d)
      ensures 0 <= d < n + 1 && docs[d].Some? && ix'.positional[t][d] == PositionsOf(t, docs[d].value)
    {
      if d != n {
        assert HasList(ix, t, d);
        assert ix'.positional[t][d] == ix.positional[t][d];
      }
    }
  }

  lemma StepDescribes(E: seq<Entry>, docs: seq<Option<seq<Occurrence>>>, n: nat, ix: Index)
    requires n < |E| == |docs| && docs[n].Some?
    requires Describes(E, docs, n, ix)
    ensures Describes(E, docs, n + 1, AddDoc(ix, n, E[n].name, docs[n].value))
  {
    StepNoList(E, docs, n, ix);
    StepHasList(docs, n, ix, E[n].name);
    StepLists(docs, n, ix, E[n].name);
    StepIds(E, docs, n, ix);
  }

  lemma StepNoList(E: seq<Entry>, docs: seq<Option<seq<Occurrence>>>, n: nat, ix: Index)
    requires n < |E| == |docs|
    requires Describes(E, docs, n, ix)
    ensures forall t :: t in ix.positional ==> n !in ix.positional[t]
  {
    forall t | t in ix.positional ensures n !in ix.positional[t] {
      assert HasList(ix, t, n) ==> DocHas(docs, n, t, n);
    }
  }

  lemma StepIds(E: seq<Entry>, docs: seq<Option<seq<Occurrence>>>, n: nat, ix: Index)
    requires n < |E| == |docs| && docs[n].Some?
    requires forall d :: d in ix.docIds <==> 0 <= d < n && docs[d].Some?
    requires forall d :: d in ix.docIds ==> 0 <= d < n && ix.docIds[d] == E[d].name
    ensures var ids := ix.docIds[n := E[n].name];
      (forall d :: d in ids <==> 0 <= d < n + 1 && docs[d].Some?)
      && (forall d :: d in ids ==> 0 <= d < n + 1 && ids[d] == E[d].name)
  {
  }

  lemma SkipDescribes(E: seq<Entry>, docs: seq<Option<seq<Occurrence>>>, n: nat, ix: Index)
    requires n < |E| == |docs| && docs[n].None?
    requires Describes(E, docs, n, ix)
    ensures Describes(E, docs, n + 1, ix)
  {
    forall t, d ensures HasList(ix, t, d) <==> DocHas(docs, n + 1, t, d) {
      assert DocHas(docs, n + 1, t, d) <==> DocHas(docs, n, t, d);
    }
  }

  /** The build over the first `n` entries is well formed and described by them. */
  ghost predicate Sound(E: seq<Entry>, docs: seq<Option<seq<Occurrence>>>, n: nat)
    requires n <= |E| == |docs|
  {
    WellFormed(BuildUpTo(E, docs, n)) && Describes(E, docs, n, BuildUpTo(E, docs, n))
  }

  /** Every build is well formed and is described by its entries. */
  lemma {:induction false} BuildUpToFacts(E: seq<Entry>, docs: seq<Option<seq<Occurrence>>>, n: nat)
    requires n <= |E| == |docs|
    requires forall d :: 0 <= d < |docs| && docs[d].Some? ==> PositionsIncrease(docs[d].value)
    ensures Sound(E, docs, n)
  {
    if n > 0 {
      var m: nat := n - 1;
      BuildUpToFacts(E, docs, m);
      assert docs[m].Some? ==> PositionsIncrease(docs[m].value);
      BuildUpToStep(E, docs, m);
    }
  }

  /** One more entry keeps a build well formed and described. */
  lemma BuildUpToStep(E: seq<Entry>, docs: seq<Option<seq<Occurrence>>>, n: nat)
    requires n < |E| == |docs|
    requires docs[n].Some? ==> PositionsIncrease(docs[n].value)
    requires Sound(E, docs, n)
    ensures Sound(E, docs, n + 1)
  {
    var ix := BuildUpTo(E, docs, n);
    BuildUpToNext(E, docs, n);
    if docs[n].Some? {
      assert forall e :: e in ix.docIds ==> e < n;
      StepWellFormed(ix, n, E[n].name, docs[n].value);
      StepDescribes(E, docs, n, ix);
    } else {
      SkipDescribes(E, docs, n, ix);
    }
  }

  /** After a build the two term indexes agree (see `WellFormed`), and what they
      hold is what the entries' preprocessed texts say (see `Describes`). */
  lemma BuiltFacts(nz: Normalizer, E: seq<Entry>)
    ensures WellFormed(Built(nz, E))
    ensures Describes(E, Documents(nz, E), |E|, Built(nz, E))
  {
    BuildUpToFacts(E, Documents(nz, E), |E|);
  }

  /** The ids of the documents among the entries whose text contains stem `t`. */
  ghost function DocsWith(nz: Normalizer, E: seq<Entry>, t: string): set<int> {
    set d | 0 <= d < |E| && DocHas(Documents(nz, E), |E|, t, d)
  }

  /** After a build, a term's posting list is the increasing list of exactly the
      documents whose preprocessed text contains it; a term no document contains
      has none. */
  lemma BuiltPostings(nz: Normalizer, E: seq<Entry>, t: string)
    ensures Postings(Built(nz, E), t) == SortSet(DocsWith(nz, E, t))
  {
    var ix := Built(nz, E);
    BuiltFacts(nz, E);
    var p := Postings(ix, t);
    var S := DocsWith(nz, E, t);
    forall d ensures d in p <==> d in S {
      assert d in S <==> DocHas(Documents(nz, E), |E|, t, d);
      assert HasList(ix, t, d) <==> DocHas(Documents(nz, E), |E|, t, d);
    }
    IncreasingUnique(p, SortSet(S));
  }
}
