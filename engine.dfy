/** The `InformationRetrievalSystem` object: the three index maps it keeps as
    fields, the build and load that fill them, and the query and printing
    methods that read them. Each method is proved to compute the function of
    the other modules that gives its meaning. */
module Engine {
  import opened Wrappers
  import opened Text
  import opened Sorting
  import opened Normalize
  import opened Indexes
  import opened Snapshots
  import opened QuerySyntax
  import opened BooleanQueries
  import opened ProximityQueries
  import opened Formatting
  import opened Queries

  /** A set of terms is empty or has a member to pick. */
  lemma EmptyOrTerm(S: set<string>)
    ensures S == {} || exists t :: t in S
  {
    if !exists t :: t in S {
      assert S == {};
    }
  }

  /** The innermost open bracket on the scan's stack. */
  function Top(stack: seq<nat>): Option<nat> {
    if stack == [] then None else Some(stack[|stack| - 1])
  }

  /** `for term, position in preprocessed_tokens`: each pair appends its
      position under its stem and document, and the stems are collected. */
  method AppendPositions(P: map<string, map<int, seq<int>>>, d: int, occs: seq<Occurrence>)
    returns (r: map<string, map<int, seq<int>>>, terms: set<string>)
    ensures r == AddAll(P, d, occs) && terms == Stems(occs)
  {
    r := P;
    terms := {};
    var i := 0;
    while i < |occs|
      invariant 0 <= i <= |occs|
      invariant r == AddAll(P, d, occs[..i])
      invariant terms == Stems(occs[..i])
    {
      var o := occs[i];
      terms := terms + {o.term};
      var inner := if o.term in r then r[o.term] else map[];
      var ps := if d in inner then inner[d] else [];
      r := r[o.term := inner[d := ps + [o.pos]]];
      assert occs[..i + 1][..i] == occs[..i];
      i := i + 1;
    }
    assert occs[..|occs|] == occs;
  }

  /** `for term in terms_in_doc`: the document id is appended once to the
      posting list of each of its stems, in whatever order the set yields them. */
  method AppendPostings(I: map<string, seq<int>>, d: int, terms: set<string>) returns (r: map<string, seq<int>>)
    ensures r == AddDocToTerms(I, d, terms)
  {
    r := I;
    var rem := terms;
    ghost var done: set<string> := {};
    while rem != {}
      invariant rem <= terms
      invariant forall x :: x in done <==> x in terms && x !in rem
      invariant r.Keys == I.Keys + done
      invariant forall u :: u in r ==> r[u] == (if u in I then I[u] else []) + (if u in done then [d] else [])
      decreases rem
    {
      EmptyOrTerm(rem);
      var t :| t in rem;
      r := r[t := (if t in r then r[t] else []) + [d]];
      done := done + {t};
      rem := rem - {t};
    }
    assert done == terms;
    AddDocToTermsIs(I, d, terms, r);
  }

  /** The document-mapping loop of `_load_indexes`:
      `doc_ids[int(doc_id)] = info['filename']` for every saved entry. */
  method ReadDocIds(mapping: map<string, DocInfo>) returns (r: map<int, string>)
    requires KeysParse(mapping)
    ensures Unkeyed(Filenames(mapping), r)
  {
    var names := Filenames(mapping);
    r := map[];
    var rem := mapping.Keys;
    ghost var done: set<string> := {};
    while rem != {}
      invariant rem <= mapping.Keys
      invariant forall x :: x in done <==> x in mapping && x !in rem
      invariant UnkeyedOn(names, done, r)
      decreases rem
    {
      EmptyOrTerm(rem);
      var k :| k in rem;
      UnkeyedOnStep(names, done, r, k);
      r := r[ParseInt(k).value := mapping[k].filename];
      done := done + {k};
      rem := rem - {k};
    }
    assert done == names.Keys;
  }

  /** The inverted-index loop of `_load_indexes`: each term gets its saved
      postings; the saved document frequency is not read. */
  method ReadPostings(saved: map<string, TermInfo>) returns (r: map<string, seq<int>>)
    ensures r.Keys == saved.Keys
    ensures forall t :: t in r ==> r[t] == saved[t].postings
  {
    r := map[];
    var rem := saved.Keys;
    ghost var done: set<string> := {};
    while rem != {}
      invariant rem <= saved.Keys
      invariant forall x :: x in done <==> x in saved && x !in rem
      invariant r.Keys == done
      invariant forall t :: t in r ==> r[t] == saved[t].postings
      decreases rem
    {
      EmptyOrTerm(rem);
      var t :| t in rem;
      r := r[t := saved[t].postings];
      done := done + {t};
      rem := rem - {t};
    }
  }

  /** The positional-index loop of `_load_indexes`: every saved pair is
      stored with `int` of its key, so a term comes back only when at least
      one document is saved under it. */
  method ReadPositions(saved: map<string, map<string, seq<int>>>) returns (r: map<string, map<int, seq<int>>>)
    requires forall t :: t in saved ==> KeysParse(saved[t])
    ensures forall t :: t in r <==> t in saved && saved[t] != map[]
    ensures forall t :: t in r ==> Unkeyed(saved[t], r[t])
  {
    r := map[];
    var rem := saved.Keys;
    ghost var done: set<string> := {};
    while rem != {}
      invariant rem <= saved.Keys
      invariant forall x :: x in done <==> x in saved && x !in rem
      invariant forall t :: t in r <==> t in done && saved[t] != map[]
      invariant forall t :: t in r ==> Unkeyed(saved[t], r[t])
      decreases rem
    {
      EmptyOrTerm(rem);
      var t :| t in rem;
      r := ReadTermPositions(r, t, saved[t]);
      done := done + {t};
      rem := rem - {t};
    }
  }

  /** The inner loop for one term: `positional_index[term][int(doc_id)] =
      positions`, where the first store creates the term's entry. */
  method ReadTermPositions(P: map<string, map<int, seq<int>>>, t: string, inner: map<string, seq<int>>)
    returns (r: map<string, map<int, seq<int>>>)
    requires t !in P && KeysParse(inner)
    ensures inner == map[] ==> r == P
    ensures inner != map[] ==> t in r && r == P[t := r[t]] && Unkeyed(inner, r[t])
  {
    var cur: map<int, seq<int>> := map[];
    var rem := inner.Keys;
    ghost var done: set<string> := {};
    while rem != {}
      invariant rem <= inner.Keys
      invariant forall x :: x in done <==> x in inner && x !in rem
      invariant UnkeyedOn(inner, done, cur)
      decreases rem
    {
      EmptyOrTerm(rem);
      var k :| k in rem;
      UnkeyedOnStep(inner, done, cur, k);
      cur := cur[ParseInt(k).value := inner[k]];
      done := done + {k};
      rem := rem - {k};
    }
    if inner == map[] {
      r := P;
    } else {
      assert done == inner.Keys;
      r := P[t := cur];
    }
  }

  /** What one pass of the build loop did with an entry. */
  datatype Outcome = Processed | Unreadable | Skipped

  function OutcomeOf(e: Entry): Outcome {
    if IsIndexed(e) then Processed
    else if EndsWith(e.name, ".txt") then Unreadable
    else Skipped
  }

  /** Whether some position of `p1` and some of `p2` are at most `k`
      apart: the two nested `for` loops that `break` on the first pair. */
  method AnyNear(p1: seq<int>, p2: seq<int>, k: int) returns (found: bool)
    ensures found <==> Near(p1, p2, k)
  {
    found := false;
    var i := 0;
    while i < |p1| && !found
      invariant 0 <= i <= |p1|
      invariant found ==> Near(p1, p2, k)
      invariant !found ==> forall x, y :: 0 <= x < i && 0 <= y < |p2| ==> Abs(p1[x] - p2[y]) > k
      decreases |p1| - i, if found then 0 else 1
    {
      var j := 0;
      while j < |p2| && !found
        invariant 0 <= j <= |p2|
        invariant found ==> Near(p1, p2, k)
        invariant !found ==> forall y :: 0 <= y < j ==> Abs(p1[i] - p2[y]) > k
        decreases |p2| - j, if found then 0 else 1
      {
        if Abs(p1[i] - p2[j]) <= k {
          found := true;
        } else {
          j := j + 1;
        }
      }
      if !found {
        i := i + 1;
      }
    }
  }

  /** The loop of `_process_proximity_query` over the documents holding
      both terms: those with a pair of positions at most `k` apart, each once. */
  method NearDocs(ix: Index, t1: string, t2: string, k: int) returns (docs: seq<int>)
    ensures Distinct(docs) && Elements(docs) == ProxDocs(ix, t1, t2, k)
  {
    var common := Elements(Postings(ix, t1)) * Elements(Postings(ix, t2));
    ghost var want := ProxDocs(ix, t1, t2, k);
    docs := [];
    var rem := common;
    while rem != {}
      invariant rem <= common
      invariant Distinct(docs)
      invariant forall d :: d in docs ==> d !in rem
      invariant forall d :: d in docs <==> d in common - rem && d in want
      decreases rem
    {
      EmptyOrMember(rem);
      var d :| d in rem;
      var near := AnyNear(Positions(ix, t1, d), Positions(ix, t2, d), k);
      if near {
        docs := docs + [d];
      }
      rem := rem - {d};
    }
    forall d ensures d in Elements(docs) <==> d in want {
      if d in want {
        assert d in Elements(Postings(ix, t1)) && d in Elements(Postings(ix, t2));
      }
    }
    assert Elements(docs) == want;
  }

  class RetrievalSystem {
    /** The stop words and the stemmer. */
    const nz: Normalizer
    /** Python's `hash` of `str(inner_result)`, which names a group's placeholder. */
    const hash: seq<int> -> int
    /** `doc_ids`: document id to file name. */
    var docIds: map<int, string>
    /** `inverted_index`: stem to the ids of the documents containing it. */
    var inverted: map<string, seq<int>>
    /** `positional_index`: stem to document id to the positions of the stem. */
    var positional: map<string, map<int, seq<int>>>

    function Current(): Index
      reads this
    {
      Index(docIds, inverted, positional)
    }

    /** `__init__` with `_build_indexes`: when a saved snapshot exists it is
        loaded, otherwise the indexes are built from the directory entries
        (and the snapshot the build writes is dropped here). */
    constructor (nz: Normalizer, hash: seq<int> -> int, entries: seq<Entry>, saved: Option<Snapshot>)
      requires saved.Some? ==> Loadable(saved.value)
      ensures this.nz == nz && this.hash == hash
      ensures saved.Some? ==> LoadsFrom(saved.value, Current())
      ensures saved.None? ==> Current() == Built(nz, entries) && WellFormed(Current())
    {
      this.nz := nz;
      this.hash := hash;
      docIds := map[];
      inverted := map[];
      positional := map[];
      new;
      if saved.Some? {
        LoadIndexes(saved.value);
      } else {
        var processed, failed, written := BuildIndexes(entries);
        BuiltFacts(nz, entries);
      }
    }

    /** `_preprocess_text`: every token, by position, that is not a stop word
        is stemmed and paired with its position among all tokens. */
    method PreprocessText(text: string) returns (r: seq<Occurrence>)
      ensures r == Preprocess(nz, text)
    {
      var toks := Tokens(text);
      r := KeepTokens(toks);
    }

    /** The `for pos, token in enumerate(tokens)` loop of `_preprocess_text`. */
    method KeepTokens(toks: seq<string>) returns (r: seq<Occurrence>)
      ensures r == KeptUpTo(nz, toks, |toks|)
    {
      r := [];
      var pos := 0;
      while pos < |toks|
        invariant 0 <= pos <= |toks|
        invariant r == KeptUpTo(nz, toks, pos)
      {
        KeptStep(nz, toks, pos);
        if toks[pos] !in nz.stopWords {
          r := r + [Occurrence(nz.stem(toks[pos]), pos)];
        }
        pos := pos + 1;
      }
    }

    /** The body of the build loop for one read document: its name is
        recorded, each pair appends its position, and each of its distinct
        stems appends the document id once. */
    method IndexDocument(d: int, name: string, occs: seq<Occurrence>)
      modifies this
      ensures Current() == AddDoc(old(Current()), d, name, occs)
    {
      docIds := docIds[d := name];
      var terms;
      positional, terms := AppendPositions(positional, d, occs);
      inverted := AppendPostings(inverted, d, terms);
    }

    /** One pass of the build loop: a `.txt` entry whose content is read is
        preprocessed and indexed under id `d`; `Unreadable` reports a `.txt`
        entry that could not be read, `Skipped` any other entry. */
    method IndexEntry(d: int, e: Entry) returns (outcome: Outcome)
      modifies this
      ensures Current() == BuildStep(nz, old(Current()), d, e)
      ensures outcome == OutcomeOf(e)
    {
      outcome := Skipped;
      if EndsWith(e.name, ".txt") {
        if e.content.Some? {
          var occs := PreprocessText(e.content.value);
          IndexDocument(d, e.name, occs);
          outcome := Processed;
        } else {
          outcome := Unreadable;
        }
      }
    }

    /** `_build_indexes` from scratch: entry `d` of the directory listing
        gets id `d`; a `.txt` entry whose content is read is indexed, one
        that cannot be read is reported as failed, and any other is skipped.
        The snapshot written at the end is returned. */
    method BuildIndexes(entries: seq<Entry>) returns (processed: nat, failed: seq<string>, saved: Snapshot)
      requires Current() == Empty
      modifies this
      ensures Current() == Built(nz, entries)
      ensures processed == |docIds| && failed == FailedUpTo(entries, |entries|)
      ensures saved == Save(Current())
    {
      ghost var docs := Documents(nz, entries);
      processed := 0;
      failed := [];
      var d := 0;
      while d < |entries|
        invariant 0 <= d <= |entries|
        invariant Current() == BuildUpTo(entries, docs, d)
        invariant processed == |docIds| && failed == FailedUpTo(entries, d)
      {
        var e := entries[d];
        BuildStepNext(nz, entries, docs, d);
        var outcome := IndexEntry(d, e);
        if outcome == Processed {
          processed := processed + 1;
        } else if outcome == Unreadable {
          failed := failed + [e.name];
        }
        d := d + 1;
      }
      saved := Save(Current());
    }

    /** `_load_indexes`: the document map and the position maps are read
        back with `int` of each key, the postings as saved. */
    method LoadIndexes(s: Snapshot)
      requires Loadable(s)
      modifies this
      ensures LoadsFrom(s, Current())
    {
      docIds := ReadDocIds(s.documentMapping);
      var postings := ReadPostings(s.invertedIndex);
      assert postings == LoadedPostings(s);
      inverted := postings;
      positional := ReadPositions(s.positionalIndex);
    }

    /** The token loop shared by `_process_boolean_query` and
        `_process_bracketed_query`: from the first token's documents, each
        operator with the token after it updates the result, and a missing
        or empty term ends the loop. */
    method FoldTokens(slot: Option<Group>, tokens: seq<string>) returns (result: set<int>)
      requires |tokens| >= 1
      ensures result == FoldOps(nz.stem, Current(), slot, Lookup(nz.stem, Current(), slot, tokens[0]), tokens[1..])
    {
      var ix := Current();
      ghost var goal := FoldOps(nz.stem, ix, slot, Lookup(nz.stem, ix, slot, tokens[0]), tokens[1..]);
      result := Lookup(nz.stem, ix, slot, tokens[0]);
      var i := 1;
      while i < |tokens|
        invariant 1 <= i <= |tokens|
        invariant FoldOps(nz.stem, ix, slot, result, tokens[i..]) == goal
      {
        var op := tokens[i];
        var term := if i + 1 < |tokens| then tokens[i + 1] else "";
        if term == "" {
          assert FoldOps(nz.stem, ix, slot, result, tokens[i..]) == result;
          break;
        }
        var termDocs := Lookup(nz.stem, ix, slot, term);
        FoldOpsAt(nz.stem, ix, slot, result, tokens, i);
        if op == "AND" {
          result := result * termDocs;
        } else if op == "OR" {
          result := result + termDocs;
        } else if op == "NOT" {
          result := result - termDocs;
        }
        i := i + 2;
      }
    }

    /** `_process_boolean_query`. */
    method BooleanQuery(q: string) returns (a: Answer)
      ensures a == Boolean(nz.stem, Current(), hash, q)
      decreases ParenCount(q), if '(' in q then 2 else 0
    {
      if '(' in q {
        a := BracketedQuery(q);
        return;
      }
      var tokens := Split(q);
      if |tokens| == 1 {
        a := Docs(SortList(Postings(Current(), nz.stem(Lower(tokens[0])))));
        return;
      }
      var result := FoldTokens(None, tokens);
      a := Docs(SortSet(result));
    }

    /** `_process_bracketed_query`. The scan stops at the first `)` that
        closes an open `(`; without one, the two methods would call each
        other on the same query until the interpreter's recursion limit. */
    method BracketedQuery(q: string) returns (a: Answer)
      ensures a == Bracketed(nz.stem, Current(), hash, q)
      decreases ParenCount(q), 1
    {
      if '(' !in q {
        a := BooleanQuery(q);
        return;
      }
      var stack: seq<nat> := [];
      var start: int := -1;
      var end: nat := 0;
      var i: nat := 0;
      while i < |q|
        invariant i <= |q| && start == -1
        invariant GroupFrom(q, i, Top(stack)) == FindGroup(q)
      {
        if q[i] == '(' {
          stack := stack + [i];
        } else if q[i] == ')' && stack != [] {
          start := stack[|stack| - 1];
          stack := stack[..|stack| - 1];
          end := i;
          break;
        }
        i := i + 1;
      }
      if start == -1 {
        a := RecursionError;
        return;
      }
      var s: nat := start;
      assert FindGroup(q) == Some((s, end));
      InnerCount(q, s, end);
      var inner := BooleanQuery(Strip(q[s + 1..end]));
      if inner.RecursionError? {
        a := RecursionError;
        return;
      }
      var ph := Placeholder(hash(inner.ids));
      var nq := q[..s] + ph + q[end + 1..];
      assert nq == Spliced(q, s, end, ph);
      SpliceCount(q, s, end, ph);
      var final := BracketedQuery(nq);
      if final.RecursionError? {
        a := RecursionError;
        return;
      }
      if |final.ids| == 1 && StartsWith(IntToString(final.ids[0]), "RESULT_") {
        a := inner;
        return;
      }
      var tokens := Split(nq);
      var result := FoldTokens(Some(Group(ph, Elements(inner.ids))), tokens);
      a := Docs(SortSet(result));
    }

    /** `_process_proximity_query`. */
    method ProximityQuery(q: string) returns (r: seq<int>)
      ensures r == Proximity(nz.stem, Current(), q)
    {
      var m := ProxMatch(q);
      if m.None? {
        return [];
      }
      var terms := Words(Lower(m.value.0));
      if |terms| != 2 {
        return [];
      }
      var t1, t2, k := nz.stem(terms[0]), nz.stem(terms[1]), m.value.1;
      var docs := NearDocs(Current(), t1, t2, k);
      SortListOfDistinct(docs);
      r := SortList(docs);
    }

    /** `print_results`, with the text after `Result-Set: ` as the result. */
    method PrintResults(ids: seq<int>) returns (p: Printed)
      ensures p == FormatResults(docIds, ids)
    {
      if |ids| == 0 {
        return NoMatches;
      }
      var numbers: seq<int> := [];
      var i := 0;
      while i < |ids|
        invariant 0 <= i <= |ids|
        invariant NumbersOf(docIds, ids[..i]) == Numbers(numbers)
      {
        var d := ids[i];
        assert ids[..i + 1][..i] == ids[..i];
        if d !in docIds {
          MissingPersists(docIds, ids, i + 1);
          return MissingDoc(d);
        }
        numbers := numbers + [FileNumber(docIds[d], d)];
        i := i + 1;
      }
      assert ids[..|ids|] == ids;
      p := ResultSet(JoinWith(Decimals(SortList(numbers)), ", "));
    }

    /** `process_query`. */
    method ProcessQuery(q: string) returns (a: Answer)
      ensures a == Evaluate(nz.stem, Current(), hash, q)
    {
      if '/' in q {
        var r := ProximityQuery(q);
        return Docs(r);
      }
      if Contains(q, " AND ") || Contains(q, " OR ") || Contains(q, "NOT ") {
        a := BooleanQuery(q);
        return;
      }
      var term := Lower(Strip(q));
      a := Docs(SortList(Postings(Current(), nz.stem(term))));
    }
  }
}
