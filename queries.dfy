/** `process_query`: the choice between a proximity query, a Boolean query and
    a simple term, and what each kind finds in the indexes a build produces. */
module Queries {
  import opened Wrappers
  import opened Text
  import opened Sorting
  import opened Normalize
  import opened Indexes
  import opened QuerySyntax
  import opened BooleanQueries
  import opened ProximityQueries

  /** The test `' AND ' in query or ' OR ' in query or 'NOT ' in query`. */
  predicate HasOperator(q: string) {
    Contains(q, " AND ") || Contains(q, " OR ") || Contains(q, "NOT ")
  }

  /** `process_query`: any `/` makes a proximity query; otherwise an operator
      spelled with its spaces makes a Boolean query; otherwise the stripped,
      lower-cased and stemmed query is looked up as one term. */
  function Evaluate(stem: string -> string, ix: Index, hash: seq<int> -> int, q: string): Answer {
    if '/' in q then Docs(Proximity(stem, ix, q))
    else if HasOperator(q) then Boolean(stem, ix, hash, q)
    else Docs(SortList(Postings(ix, stem(Lower(Strip(q))))))
  }

  /** A query fails exactly when it is a Boolean query (no `/`, an operator)
      and leaves a bracket open; proximity and simple queries never fail. */
  lemma EvaluateFails(stem: string -> string, ix: Index, hash: seq<int> -> int, q: string)
    ensures Evaluate(stem, ix, hash, q).RecursionError? <==> '/' !in q && HasOperator(q) && Depth(q, 0) > 0
  {
    if '/' !in q && HasOperator(q) {
      if '(' in q {
        FailsIffUnclosed(stem, ix, hash, q);
      } else {
        DepthNoOpen(q, 0);
      }
    }
  }

  /** A simple query whose stem has no posting list finds nothing. */
  lemma UnknownTerm(stem: string -> string, ix: Index, hash: seq<int> -> int, q: string)
    requires '/' !in q && !HasOperator(q)
    requires stem(Lower(Strip(q))) !in ix.inverted
    ensures Evaluate(stem, ix, hash, q) == Docs([])
  {
    var r := SortList([]);
    assert |multiset(r)| == 0;
  }

  /** Text holding a space is not found in text without whitespace. */
  lemma NotInUnspaced(w: string, x: string, k: nat)
    requires forall c :: c in w ==> !IsSpace(c)
    requires k < |x| && x[k] == ' '
    ensures !Contains(w, x)
  {
    forall i | 0 <= i <= |w| ensures !HasAt(w, i, x) {
      if i + |x| <= |w| {
        assert w[i..i + |x|][k] == w[i + k];
        assert w[i + k] in w;
      }
    }
  }

  /** A word with no whitespace and no `/` is a simple term: its documents
      are the term's posting list, sorted. */
  lemma SimpleQuery(stem: string -> string, ix: Index, hash: seq<int> -> int, w: string)
    requires forall c :: c in w ==> !IsSpace(c)
    requires '/' !in w
    ensures Evaluate(stem, ix, hash, w) == Docs(SortList(Postings(ix, stem(Lower(w)))))
  {
    NotInUnspaced(w, " AND ", 0);
    NotInUnspaced(w, " OR ", 0);
    NotInUnspaced(w, "NOT ", 3);
    if w != [] {
      assert w[0] in w && w[|w| - 1] in w;
    }
    StripUnchanged(w);
  }

  /** A leading `NOT` is not an operator: `NOT w` passes the operator test,
      but the split finds no operator with whitespace before it, so the whole
      query, lower-cased to `not w`, is looked up as a single term. */
  lemma LeadingNot(stem: string -> string, ix: Index, hash: seq<int> -> int, w: string, q: string)
    requires forall c :: c in w ==> !IsSpace(c) && c != '/' && c != '('
    requires q == "NOT " + w
    ensures Evaluate(stem, ix, hash, q) == Docs(SortList(Postings(ix, stem(Lower(q)))))
  {
    assert "NOT" + " " + w == q;
    assert HasAt(q, 0, "NOT ");
    assert '/' !in q && '(' !in q by {
      assert forall c :: c in q ==> c in "NOT " || c in w;
    }
    SplitTwoWords("NOT", w);
    BooleanWithoutGroups(stem, ix, hash, q);
  }

  /** A Boolean query without brackets is evaluated flat. */
  lemma BooleanWithoutGroups(stem: string -> string, ix: Index, hash: seq<int> -> int, q: string)
    requires '/' !in q && HasOperator(q) && '(' !in q
    ensures Evaluate(stem, ix, hash, q) == Docs(Flat(stem, ix, q))
  {
  }

  /** WellWorded text holds no `/` and no bracket. */
  lemma RenderPlain(t0: string, rest: seq<Clause>)
    requires WellWorded(t0, rest)
    ensures '/' !in Render(t0, rest) && '(' !in Render(t0, rest) && ')' !in Render(t0, rest)
  {
    QuerySyntax.RenderChars(t0, rest);
  }

  /** The operator of `t op ...` with its spaces passes the operator test. */
  lemma OperatorSeen(t: string, op: string, u: string, q: string)
    requires op in Operators && q == t + " " + op + " " + u
    ensures HasOperator(q)
  {
    var n := |t|;
    if op == "NOT" {
      assert q[n + 1..n + 5] == "NOT ";
      assert HasAt(q, n + 1, "NOT ");
    } else if op == "AND" {
      assert q[n..n + 5] == " AND ";
      assert HasAt(q, n, " AND ");
    } else {
      assert q[n..n + 4] == " OR ";
      assert HasAt(q, n, " OR ");
    }
  }

  /** A query of words and operators evaluates strictly left to right from
      the first term's documents. */
  lemma FlatQuery(stem: string -> string, ix: Index, hash: seq<int> -> int, t0: string, rest: seq<Clause>, q: string)
    requires WellWorded(t0, rest) && rest != [] && q == Render(t0, rest)
    ensures Evaluate(stem, ix, hash, q) == Docs(SortSet(Combine(stem, ix, None, TermDocs(stem, ix, t0), rest)))
  {
    RenderPlain(t0, rest);
    OperatorSeen(t0, rest[0].op, Render(rest[0].term, rest[1..]), q);
    BooleanWithoutGroups(stem, ix, hash, q);
    WordsAreSpelled(t0, rest);
    FlatRender(stem, ix, t0, rest);
  }

  /** There is no precedence: `a OR b AND c` means `(a OR b) AND c`. */
  lemma NoPrecedence(stem: string -> string, ix: Index, hash: seq<int> -> int, a: string, b: string, c: string, q: string)
    requires IsWord(a) && IsWord(b) && IsWord(c) && q == a + " OR " + b + " AND " + c
    ensures Evaluate(stem, ix, hash, q) ==
      Docs(SortSet((TermDocs(stem, ix, a) + TermDocs(stem, ix, b)) * TermDocs(stem, ix, c)))
  {
    var rest := [Clause("OR", b), Clause("AND", c)];
    RenderTwo(a, "OR", b, "AND", c, q);
    FlatQuery(stem, ix, hash, a, rest, q);
    CombineTwo(stem, ix, TermDocs(stem, ix, a), "OR", b, "AND", c);
  }

  lemma RenderTwo(a: string, o1: string, b: string, o2: string, c: string, q: string)
    requires q == a + " " + o1 + " " + b + " " + o2 + " " + c
    ensures q == Render(a, [Clause(o1, b), Clause(o2, c)])
  {
    var rest := [Clause(o1, b), Clause(o2, c)];
    assert rest[1..] == [Clause(o2, c)] && rest[1..][1..] == [];
    assert Render(b, rest[1..]) == b + " " + o2 + " " + c;
  }

  lemma CombineTwo(stem: string -> string, ix: Index, acc: set<int>, o1: string, b: string, o2: string, c: string)
    ensures Combine(stem, ix, None, acc, [Clause(o1, b), Clause(o2, c)]) ==
      Apply(o2, Apply(o1, acc, TermDocs(stem, ix, b)), TermDocs(stem, ix, c))
  {
    var rest := [Clause(o1, b), Clause(o2, c)];
    assert rest[1..] == [Clause(o2, c)] && rest[1..][1..] == [];
    var mid := Apply(o1, acc, Lookup(stem, ix, None, b));
    assert Combine(stem, ix, None, acc, rest) == Combine(stem, ix, None, mid, rest[1..]);
    assert Combine(stem, ix, None, mid, rest[1..]) == Combine(stem, ix, None, Apply(o2, mid, Lookup(stem, ix, None, c)), []);
  }

  /** A query ending in one bracket group: the group's inside is evaluated
      flat, and the last operator combines its documents with the result of
      the terms before it. */
  lemma GroupQuery(stem: string -> string, ix: Index, hash: seq<int> -> int,
                   t0: string, rest: seq<Clause>, op: string, u0: string, urest: seq<Clause>, q: string)
    requires EndGroupParts(t0, rest, op, u0, urest)
    requires q == Render(t0, rest) + " " + op + " (" + Render(u0, urest) + ")"
    ensures Evaluate(stem, ix, hash, q) ==
      Docs(SortSet(Apply(op, Combine(stem, ix, None, TermDocs(stem, ix, t0), rest),
                             Elements(Flat(stem, ix, Render(u0, urest))))))
  {
    var a, b := Render(t0, rest), Render(u0, urest);
    RenderPlain(t0, rest);
    RenderPlain(u0, urest);
    assert q == a + " " + op + " " + ("(" + b + ")");
    assert q[|a| + |op| + 2] == '(';
    assert '/' !in q by {
      assert forall c :: c in q ==> c in a || c in op || c in b || c in " ()";
    }
    OperatorSeen(a, op, "(" + b + ")", q);
    GroupAtEnd(stem, ix, hash, t0, rest, op, u0, urest);
  }

  /** `a b /k` finds the documents in which the stems of the two words occur
      within `k` positions of each other. */
  lemma ProximityQuery(stem: string -> string, ix: Index, hash: seq<int> -> int, a: string, b: string, k: nat, q: string)
    requires |a| > 0 && |b| > 0 && b[0] != '/'
    requires forall c :: c in a + b ==> !IsSpace(c)
    requires q == a + " " + b + " /" + NatToString(k)
    ensures Evaluate(stem, ix, hash, q) == Docs(SortSet(ProxDocs(ix, stem(Lower(a)), stem(Lower(b)), k)))
  {
    assert q[|a| + |b| + 2] == '/';
    assert q == a + " " + b + " /" + NatToString(k) + "";
    ProximityRender(stem, ix, a, b, k, "", q);
  }

  // ---------------------------------------------------------------------
  // Queries against the indexes of a build

  /** After a build, a term's documents are those whose text contains its stem. */
  lemma BuiltTermDocs(nz: Normalizer, E: seq<Entry>, t: string)
    ensures TermDocs(nz.stem, Built(nz, E), t) == DocsWith(nz, E, nz.stem(Lower(t)))
  {
    var u := nz.stem(Lower(t));
    BuiltPostings(nz, E, u);
  }

  /** A simple query on a built index lists, in increasing order, the
      documents whose text contains the query's stem. */
  lemma BuiltSimpleQuery(nz: Normalizer, E: seq<Entry>, hash: seq<int> -> int, w: string)
    requires forall c :: c in w ==> !IsSpace(c)
    requires '/' !in w
    ensures Evaluate(nz.stem, Built(nz, E), hash, w) == Docs(SortSet(DocsWith(nz, E, nz.stem(Lower(w)))))
  {
    var u := nz.stem(Lower(w));
    SimpleQuery(nz.stem, Built(nz, E), hash, w);
    BuiltPostings(nz, E, u);
    SortListOfIncreasing(SortSet(DocsWith(nz, E, u)));
  }

  /** `a op b` on a built index combines the two sets of documents that
      contain the words' stems: intersection, union or difference. */
  lemma BuiltPairQuery(nz: Normalizer, E: seq<Entry>, hash: seq<int> -> int, a: string, op: string, b: string, q: string)
    requires IsWord(a) && IsWord(b) && op in Operators && q == a + " " + op + " " + b
    ensures Evaluate(nz.stem, Built(nz, E), hash, q) ==
      Docs(SortSet(Apply(op, DocsWith(nz, E, nz.stem(Lower(a))), DocsWith(nz, E, nz.stem(Lower(b))))))
  {
    var ix := Built(nz, E);
    var rest := [Clause(op, b)];
    assert rest[1..] == [];
    assert Render(a, rest) == q;
    FlatQuery(nz.stem, ix, hash, a, rest, q);
    BuiltTermDocs(nz, E, a);
    BuiltTermDocs(nz, E, b);
  }

  /** An AND query finds no document the OR query of the same words misses. */
  lemma AndWithinOr(nz: Normalizer, E: seq<Entry>, hash: seq<int> -> int, a: string, b: string, q1: string, q2: string)
    requires IsWord(a) && IsWord(b) && q1 == a + " AND " + b && q2 == a + " OR " + b
    ensures Evaluate(nz.stem, Built(nz, E), hash, q1).Docs? && Evaluate(nz.stem, Built(nz, E), hash, q2).Docs?
    ensures Elements(Evaluate(nz.stem, Built(nz, E), hash, q1).ids) <= Elements(Evaluate(nz.stem, Built(nz, E), hash, q2).ids)
  {
    assert q1 == a + " " + "AND" + " " + b && q2 == a + " " + "OR" + " " + b;
    var A, B := DocsWith(nz, E, nz.stem(Lower(a))), DocsWith(nz, E, nz.stem(Lower(b)));
    BuiltPairQuery(nz, E, hash, a, "AND", b, q1);
    BuiltPairQuery(nz, E, hash, a, "OR", b, q2);
    SortedWithin(A * B, A + B);
  }

  lemma SortedWithin(X: set<int>, Y: set<int>)
    requires X <= Y
    ensures Elements(SortSet(X)) <= Elements(SortSet(Y))
  {
  }

  /** Whether an indexed text has tokens with stems `t1` and `t2` at most `k` positions apart. */
  ghost predicate NearIn(occs: seq<Occurrence>, t1: string, t2: string, k: int) {
    exists i, j :: 0 <= i < |occs| && 0 <= j < |occs| &&
      occs[i].term == t1 && occs[j].term == t2 && Abs(occs[i].pos - occs[j].pos) <= k
  }

  /** On a built index, a term's posting list holds exactly the documents
      that have a position list for it. */
  lemma BuiltListed(nz: Normalizer, E: seq<Entry>, t: string, d: int)
    ensures var ix := Built(nz, E);
      d in Postings(ix, t) <==> HasList(ix, t, d)
  {
    var ix := Built(nz, E);
    BuiltFacts(nz, E);
    assert t in ix.inverted <==> t in ix.positional;
  }

  /** Two stems are near in the position lists exactly when some two of
      their occurrences are; a stem that occurs is among the text's stems. */
  lemma NearPositions(occs: seq<Occurrence>, t1: string, t2: string, k: int)
    ensures Near(PositionsOf(t1, occs), PositionsOf(t2, occs), k) <==> NearIn(occs, t1, t2, k)
    ensures NearIn(occs, t1, t2, k) ==> t1 in Stems(occs) && t2 in Stems(occs)
  {
    if Near(PositionsOf(t1, occs), PositionsOf(t2, occs), k) {
      NearFromPositions(occs, t1, t2, k);
    }
    if NearIn(occs, t1, t2, k) {
      PositionsFromNear(occs, t1, t2, k);
    }
  }

  lemma NearFromPositions(occs: seq<Occurrence>, t1: string, t2: string, k: int)
    requires Near(PositionsOf(t1, occs), PositionsOf(t2, occs), k)
    ensures NearIn(occs, t1, t2, k)
  {
    var p1, p2 := PositionsOf(t1, occs), PositionsOf(t2, occs);
    var i, j :| 0 <= i < |p1| && 0 <= j < |p2| && Abs(p1[i] - p2[j]) <= k;
    assert p1[i] in p1 && p2[j] in p2;
    PositionsOfMembers(t1, occs);
    PositionsOfMembers(t2, occs);
    var x :| 0 <= x < |occs| && occs[x].term == t1 && occs[x].pos == p1[i];
    var y :| 0 <= y < |occs| && occs[y].term == t2 && occs[y].pos == p2[j];
    assert Abs(occs[x].pos - occs[y].pos) <= k;
  }

  lemma PositionsFromNear(occs: seq<Occurrence>, t1: string, t2: string, k: int)
    requires NearIn(occs, t1, t2, k)
    ensures Near(PositionsOf(t1, occs), PositionsOf(t2, occs), k)
    ensures t1 in Stems(occs) && t2 in Stems(occs)
  {
    var p1, p2 := PositionsOf(t1, occs), PositionsOf(t2, occs);
    var x, y :| 0 <= x < |occs| && 0 <= y < |occs| &&
      occs[x].term == t1 && occs[y].term == t2 && Abs(occs[x].pos - occs[y].pos) <= k;
    PositionsOfMembers(t1, occs);
    PositionsOfMembers(t2, occs);
    assert occs[x].pos in p1 && occs[y].pos in p2;
    var i :| 0 <= i < |p1| && p1[i] == occs[x].pos;
    var j :| 0 <= j < |p2| && p2[j] == occs[y].pos;
    assert Abs(p1[i] - p2[j]) <= k;
  }

  /** Proximity on a built index: a document qualifies exactly when it was
      indexed and its text has the two stems at most `k` tokens apart,
      counting every token, stop words included. */
  lemma BuiltProximity(nz: Normalizer, E: seq<Entry>, t1: string, t2: string, k: int, d: int)
    ensures d in ProxDocs(Built(nz, E), t1, t2, k) <==>
      0 <= d < |E| && IsIndexed(E[d]) && NearIn(DocOccs(nz, E[d]), t1, t2, k)
  {
    var ix := Built(nz, E);
    var docs := Documents(nz, E);
    BuiltFacts(nz, E);
    BuiltListed(nz, E, t1, d);
    BuiltListed(nz, E, t2, d);
    assert HasList(ix, t1, d) <==> DocHas(docs, |E|, t1, d);
    assert HasList(ix, t2, d) <==> DocHas(docs, |E|, t2, d);
    if 0 <= d < |E| && IsIndexed(E[d]) {
      var occs := DocOccs(nz, E[d]);
      assert docs[d] == Some(occs);
      NearPositions(occs, t1, t2, k);
      assert HasList(ix, t1, d) ==> Positions(ix, t1, d) == PositionsOf(t1, occs);
      assert HasList(ix, t2, d) ==> Positions(ix, t2, d) == PositionsOf(t2, occs);
    }
  }
}
