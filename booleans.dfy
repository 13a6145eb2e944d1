/** Boolean queries: the flat left-to-right evaluation of `_process_boolean_query`
    and the one-group-at-a-time bracket handling of `_process_bracketed_query`. */
module BooleanQueries {
  import opened Wrappers
  import opened Text
  import opened Sorting
  import opened Indexes
  import opened QuerySyntax

  /** The documents of a query term: `set(inverted_index.get(stem(term.lower()), []))`. */
  function TermDocs(stem: string -> string, ix: Index, term: string): set<int> {
    Elements(Postings(ix, stem(Lower(term))))
  }

  /** What one operator does to the running result; any other token leaves it alone. */
  function Apply(op: string, acc: set<int>, docs: set<int>): (r: set<int>)
    ensures op == "AND" ==> r == acc * docs
    ensures op == "OR" ==> r == acc + docs
    ensures op == "NOT" ==> r == acc - docs
    ensures op !in Operators ==> r == acc
  {
    if op == "AND" then acc * docs
    else if op == "OR" then acc + docs
    else if op == "NOT" then acc - docs
    else acc
  }

  /** An evaluated bracket group: the placeholder that replaced it in the query
      and the documents it stands for. */
  datatype Group = Group(placeholder: string, docs: set<int>)

  /** The documents of a token: those of the group when the token is its
      placeholder, otherwise those of the term. */
  function Lookup(stem: string -> string, ix: Index, slot: Option<Group>, term: string): (r: set<int>)
    ensures slot.None? ==> r == TermDocs(stem, ix, term)
    ensures slot.Some? && term == slot.value.placeholder ==> r == slot.value.docs
    ensures slot.Some? && term != slot.value.placeholder ==> r == TermDocs(stem, ix, term)
  {
    if slot.Some? && term == slot.value.placeholder then slot.value.docs else TermDocs(stem, ix, term)
  }

  /** The `while i < len(tokens)` loop over the tokens after the first: each
      operator with the token after it updates the result, and a missing or
      empty term ends the loop. */
  function FoldOps(stem: string -> string, ix: Index, slot: Option<Group>, acc: set<int>, toks: seq<string>): set<int>
    decreases |toks|
  {
    if toks == [] then acc
    else
      var term := if |toks| > 1 then toks[1] else "";
      if term == "" then acc
      else FoldOps(stem, ix, slot, Apply(toks[0], acc, Lookup(stem, ix, slot, term)), toks[2..])
  }

  /** One operator and the term after it, at index `i` of the tokens. */
  lemma FoldOpsAt(stem: string -> string, ix: Index, slot: Option<Group>, acc: set<int>, toks: seq<string>, i: nat)
    requires i + 1 < |toks| && toks[i + 1] != ""
    ensures FoldOps(stem, ix, slot, acc, toks[i..]) ==
      FoldOps(stem, ix, slot, Apply(toks[i], acc, Lookup(stem, ix, slot, toks[i + 1])), toks[i + 2..])
  {
    assert toks[i..][2..] == toks[i + 2..];
  }

  /** The reference meaning of a flat query: its clauses applied strictly left
      to right, with no precedence among the operators. */
  function Combine(stem: string -> string, ix: Index, slot: Option<Group>, acc: set<int>, rest: seq<Clause>): set<int>
    decreases |rest|
  {
    if rest == [] then acc
    else Combine(stem, ix, slot, Apply(rest[0].op, acc, Lookup(stem, ix, slot, rest[0].term)), rest[1..])
  }

  /** The token loop over the clauses of a query computes their left-to-right
      combination, then carries on with whatever tokens follow them. */
  lemma {:induction false} FoldPairs(stem: string -> string, ix: Index, slot: Option<Group>, acc: set<int>, rest: seq<Clause>, extra: seq<string>)
    requires forall k :: 0 <= k < |rest| ==> rest[k].term != ""
    ensures FoldOps(stem, ix, slot, acc, Pairs(rest) + extra) == FoldOps(stem, ix, slot, Combine(stem, ix, slot, acc, rest), extra)
    decreases |rest|
  {
    if rest != [] {
      var toks := Pairs(rest) + extra;
      PairsFront(rest, extra);
      assert toks[0..] == toks;
      FoldOpsAt(stem, ix, slot, acc, toks, 0);
      var acc' := Apply(rest[0].op, acc, Lookup(stem, ix, slot, rest[0].term));
      assert Combine(stem, ix, slot, acc, rest) == Combine(stem, ix, slot, acc', rest[1..]);
      assert forall k :: 0 <= k < |rest[1..]| ==> rest[1..][k] == rest[k + 1];
      FoldPairs(stem, ix, slot, acc', rest[1..], extra);
    } else {
      assert Pairs(rest) + extra == extra;
    }
  }

  lemma PairsFront(rest: seq<Clause>, extra: seq<string>)
    requires rest != []
    ensures var toks := Pairs(rest) + extra;
      |toks| >= 2 && toks[0] == rest[0].op && toks[1] == rest[0].term && toks[2..] == Pairs(rest[1..]) + extra
  {
    var a, b, P := rest[0].op, rest[0].term, Pairs(rest[1..]);
    assert Pairs(rest) == [a, b] + P;
    ConcatAssoc([a, b], P, extra);
    TwoThen(a, b, P + extra);
  }

  lemma ConcatAssoc<T>(x: seq<T>, y: seq<T>, z: seq<T>)
    ensures (x + y) + z == x + (y + z)
  {
  }

  lemma TwoThen<T>(a: T, b: T, xs: seq<T>)
    ensures |[a, b] + xs| >= 2 && ([a, b] + xs)[0] == a && ([a, b] + xs)[1] == b && ([a, b] + xs)[2..] == xs
  {
  }

  /** Appending a clause applies it last. */
  lemma {:induction false} CombineAppend(stem: string -> string, ix: Index, slot: Option<Group>, acc: set<int>, rest: seq<Clause>, c: Clause)
    ensures Combine(stem, ix, slot, acc, rest + [c]) ==
      Apply(c.op, Combine(stem, ix, slot, acc, rest), Lookup(stem, ix, slot, c.term))
    decreases |rest|
  {
    if rest != [] {
      assert (rest + [c])[1..] == rest[1..] + [c];
      CombineAppend(stem, ix, slot, Apply(rest[0].op, acc, Lookup(stem, ix, slot, rest[0].term)), rest[1..], c);
    }
  }

  /** A group is looked up only through its placeholder: clauses whose terms
      differ from it combine as if there were no group. */
  lemma {:induction false} CombineIgnoresGroup(stem: string -> string, ix: Index, g: Group, acc: set<int>, rest: seq<Clause>)
    requires forall k :: 0 <= k < |rest| ==> rest[k].term != g.placeholder
    ensures Combine(stem, ix, Some(g), acc, rest) == Combine(stem, ix, None, acc, rest)
    decreases |rest|
  {
    if rest != [] {
      CombineIgnoresGroup(stem, ix, g, Apply(rest[0].op, acc, Lookup(stem, ix, None, rest[0].term)), rest[1..]);
    }
  }

  /** `_process_boolean_query` on a query without brackets: one token is looked
      up as a term and its posting list sorted; otherwise the tokens are folded
      left to right from the first term's documents and the set is sorted. */
  function Flat(stem: string -> string, ix: Index, q: string): seq<int> {
    var toks := Split(q);
    if |toks| == 1 then SortList(Postings(ix, stem(Lower(toks[0]))))
    else SortSet(FoldOps(stem, ix, None, TermDocs(stem, ix, toks[0]), toks[1..]))
  }

  /** A rendered query of at least two terms evaluates to its left-to-right combination. */
  lemma FlatRender(stem: string -> string, ix: Index, t0: string, rest: seq<Clause>)
    requires WellSpelled(t0, rest) && rest != []
    ensures Flat(stem, ix, Render(t0, rest)) == SortSet(Combine(stem, ix, None, TermDocs(stem, ix, t0), rest))
  {
    SplitRender(t0, rest);
    var toks := [t0] + Pairs(rest);
    assert toks[1..] == Pairs(rest) + [];
    FoldPairs(stem, ix, None, TermDocs(stem, ix, t0), rest, []);
  }

  /** A dangling operator with nothing after it is ignored. */
  lemma FlatTrailing(stem: string -> string, ix: Index, t0: string, rest: seq<Clause>, op: string)
    requires WellSpelled(t0, rest) && op in Operators
    ensures Flat(stem, ix, Render(t0, rest) + (" " + op + " ")) ==
      SortSet(Combine(stem, ix, None, TermDocs(stem, ix, t0), rest))
  {
    SplitRenderTrailing(t0, rest, op);
    var toks := [t0] + Pairs(rest) + [op, ""];
    assert toks[1..] == Pairs(rest) + [op, ""];
    FoldPairs(stem, ix, None, TermDocs(stem, ix, t0), rest, [op, ""]);
  }

  /** `a OR b` is the union of the two terms' documents. */
  lemma FlatOr(stem: string -> string, ix: Index, a: string, b: string)
    requires Unspaced(a) && Unspaced(b)
    ensures Flat(stem, ix, Render(a, [Clause("OR", b)])) == SortSet(TermDocs(stem, ix, a) + TermDocs(stem, ix, b))
  {
    FlatRender(stem, ix, a, [Clause("OR", b)]);
    assert Combine(stem, ix, None, TermDocs(stem, ix, a), [Clause("OR", b)]) ==
      TermDocs(stem, ix, a) + TermDocs(stem, ix, b);
  }

  /** Flat evaluation is symmetric in the two terms of an OR. */
  lemma FlatOrCommutes(stem: string -> string, ix: Index, a: string, b: string)
    requires Unspaced(a) && Unspaced(b)
    ensures Flat(stem, ix, Render(a, [Clause("OR", b)])) == Flat(stem, ix, Render(b, [Clause("OR", a)]))
  {
    FlatOr(stem, ix, a, b);
    FlatOr(stem, ix, b, a);
    assert TermDocs(stem, ix, a) + TermDocs(stem, ix, b) == TermDocs(stem, ix, b) + TermDocs(stem, ix, a);
  }

  // ---------------------------------------------------------------------
  // Brackets

  /** The number of opening brackets: each bracket step removes one. */
  function ParenCount(q: string): nat {
    multiset(q)['(']
  }

  /** The scan `for i, char in enumerate(query)` from index `i`, given the
      innermost open bracket so far: the first `)` that meets an open bracket
      closes the most recent one. A `)` with nothing open is skipped. */
  function GroupFrom(q: string, i: nat, top: Option<nat>): Option<(nat, nat)>
    requires i <= |q|
    decreases |q| - i
  {
    if i == |q| then None
    else if q[i] == '(' then GroupFrom(q, i + 1, Some(i))
    else if q[i] == ')' && top.Some? then Some((top.value, i))
    else GroupFrom(q, i + 1, top)
  }

  /** No bracket strictly between `a` and `b`. */
  predicate Plain(q: string, a: int, b: int)
    requires 0 <= a && b <= |q|
  {
    forall k :: a < k < b ==> q[k] != '(' && q[k] != ')'
  }

  /** No `(` before `i` is followed by a `)` before `i`. */
  predicate Unmatched(q: string, i: nat)
    requires i <= |q|
  {
    forall a, b :: 0 <= a < b < i && q[a] == '(' ==> q[b] != ')'
  }

  predicate ScanState(q: string, i: nat, top: Option<nat>)
    requires i <= |q|
  {
    Unmatched(q, i) &&
    (top.None? ==> forall a :: 0 <= a < i ==> q[a] != '(') &&
    (top.Some? ==> top.value < i && q[top.value] == '(' && forall a :: top.value < a < i ==> q[a] != '(')
  }

  lemma {:induction false} GroupFromFacts(q: string, i: nat, top: Option<nat>)
    requires i <= |q| && ScanState(q, i, top)
    ensures var r := GroupFrom(q, i, top);
      r.Some? ==> (r.value.0 < r.value.1 < |q| && q[r.value.0] == '(' && q[r.value.1] == ')' &&
         Plain(q, r.value.0, r.value.1) && Unmatched(q, r.value.1))
    ensures GroupFrom(q, i, top).None? ==> Unmatched(q, |q|)
    decreases |q| - i
  {
    if i < |q| {
      if q[i] == '(' {
        GroupFromFacts(q, i + 1, Some(i));
      } else if q[i] == ')' && top.Some? {
        assert Plain(q, top.value, i);
      } else {
        GroupFromFacts(q, i + 1, top);
      }
    }
  }

  /** The bracket pair `_process_bracketed_query` picks: the first `)` that
      closes something, and the `(` it closes, so nothing in between is a
      bracket; when there is none, no `(` is ever followed by a `)`. */
  function FindGroup(q: string): (r: Option<(nat, nat)>)
    ensures r.Some? ==> r.value.0 < r.value.1 < |q| && q[r.value.0] == '(' && q[r.value.1] == ')'
    ensures r.Some? ==> Plain(q, r.value.0, r.value.1) && Unmatched(q, r.value.1)
    ensures r.None? ==> Unmatched(q, |q|)
  {
    GroupFromFacts(q, 0, None);
    GroupFrom(q, 0, None)
  }

  /** `f"RESULT_{hash(str(inner_result))}"`; the hash is a parameter. */
  function Placeholder(h: int): (r: string)
    ensures '(' !in r && ')' !in r && Unspaced(r)
    ensures '_' in r
  {
    var r := "RESULT_" + IntToString(h);
    assert r[6] == '_';
    r
  }

  /** What a Boolean query yields: a sorted list, or the `RecursionError` that
      an unmatched `(` drives the two methods into. */
  datatype Answer = Docs(ids: seq<int>) | RecursionError

  /** `_process_boolean_query`. */
  function Boolean(stem: string -> string, ix: Index, hash: seq<int> -> int, q: string): Answer
    decreases ParenCount(q), if '(' in q then 2 else 0
  {
    if '(' in q then Bracketed(stem, ix, hash, q) else Docs(Flat(stem, ix, q))
  }

  /** `_process_bracketed_query`: the innermost-first group is evaluated flat and
      spliced back in as a placeholder; the rewritten query is processed again
      (and its answer dropped unless it fails), then folded with the
      placeholder standing for the group's documents. Without a closing bracket
      the two methods call each other on the same query until Python gives up. */
  function Bracketed(stem: string -> string, ix: Index, hash: seq<int> -> int, q: string): Answer
    decreases ParenCount(q), 1
  {
    if '(' !in q then Boolean(stem, ix, hash, q)
    else match FindGroup(q)
      case None => RecursionError
      case Some((s, e)) => BracketStep(stem, ix, hash, q, s, e)
  }

  /** One group of `_process_bracketed_query`, found at `s` and `e`. */
  function BracketStep(stem: string -> string, ix: Index, hash: seq<int> -> int, q: string, s: nat, e: nat): Answer
    requires '(' in q && s < e < |q| && q[s] == '(' && q[e] == ')' && Plain(q, s, e)
    decreases ParenCount(q), 0
  {
    InnerCount(q, s, e);
    var inner := Boolean(stem, ix, hash, Strip(q[s + 1..e]));
    if inner.RecursionError? then RecursionError
    else
      var ph := Placeholder(hash(inner.ids));
      var nq := Spliced(q, s, e, ph);
      SpliceCount(q, s, e, ph);
      var final := Bracketed(stem, ix, hash, nq);
      if final.RecursionError? then RecursionError
      else if |final.ids| == 1 && StartsWith(IntToString(final.ids[0]), "RESULT_") then inner
      else Docs(Regrouped(stem, ix, nq, Group(ph, Elements(inner.ids))))
  }

  /** The closing fold over the rewritten query, the placeholder included. */
  function Regrouped(stem: string -> string, ix: Index, nq: string, g: Group): seq<int> {
    var toks := Split(nq);
    SortSet(FoldOps(stem, ix, Some(g), Lookup(stem, ix, Some(g), toks[0]), toks[1..]))
  }

  lemma StripChars(s: string)
    ensures forall c :: c in Strip(s) ==> c in s
  {
    var t := TrimStart(s);
    assert forall c :: c in t ==> c in s by {
      forall c | c in t ensures c in s {
        var k :| 0 <= k < |t| && t[k] == c;
        assert s[|s| - |t| + k] == c;
      }
    }
    var r := TrimEnd(t);
    forall c | c in r ensures c in t {
      var k :| 0 <= k < |r| && r[k] == c;
      assert t[k] == c;
    }
  }

  /** The stripped inside of a group holds no `(`. */
  lemma InnerCount(q: string, s: nat, e: nat)
    requires s < e <= |q| && Plain(q, s, e)
    ensures ParenCount(Strip(q[s + 1..e])) == 0
  {
    StripChars(q[s + 1..e]);
    assert '(' !in q[s + 1..e];
  }

  /** Replacing a group by a placeholder removes exactly one `(`. */
  lemma SpliceCount(q: string, s: nat, e: nat, ph: string)
    requires s < e < |q| && q[s] == '(' && q[e] == ')' && Plain(q, s, e) && '(' !in ph
    ensures ParenCount(q[..s] + ph + q[e + 1..]) + 1 == ParenCount(q)
  {
    var x, mid, y := q[..s], q[s + 1..e], q[e + 1..];
    var grp := [q[s]] + mid + [q[e]];
    assert q == x + grp + y;
    assert multiset(q) == multiset(x) + multiset(grp) + multiset(y);
    assert multiset(x + ph + y) == multiset(x) + multiset(ph) + multiset(y);
    assert '(' !in mid;
    assert multiset(grp)['('] == 1 by {
      assert multiset(grp) == multiset([q[s]]) + multiset(mid) + multiset([q[e]]);
    }
  }

  /** The guard before the closing fold never holds: `str` of a document id
      starts with a digit or `-`, not with `R`. */
  lemma GuardNeverHolds(x: int)
    ensures !StartsWith(IntToString(x), "RESULT_")
  {
    var r := IntToString(x);
    assert r[0] != "RESULT_"[0];
  }

  // ---------------------------------------------------------------------
  // When bracket processing fails

  function DepthStep(ch: char, c: nat): nat {
    if ch == '(' then c + 1 else if ch == ')' && c > 0 then c - 1 else c
  }

  /** The reference count of brackets left open after reading `s` from depth
      `c`: a `(` opens one, a `)` closes one when any is open and is ignored
      otherwise. */
  function Depth(s: string, c: nat): nat
    decreases |s|
  {
    if s == [] then c else Depth(s[1..], DepthStep(s[0], c))
  }

  lemma {:induction false} DepthAppend(a: string, b: string, c: nat)
    ensures Depth(a + b, c) == Depth(b, Depth(a, c))
    decreases |a|
  {
    if a == [] {
      assert a + b == b;
    } else {
      assert (a + b)[1..] == a[1..] + b;
      DepthAppend(a[1..], b, DepthStep(a[0], c));
    }
  }

  lemma {:induction false} DepthPlain(s: string, c: nat)
    requires '(' !in s && ')' !in s
    ensures Depth(s, c) == c
    decreases |s|
  {
    if s != [] {
      assert s[0] in s;
      assert forall ch :: ch in s[1..] ==> ch in s;
      DepthPlain(s[1..], c);
    }
  }

  lemma {:induction false} DepthNoOpen(s: string, c: nat)
    requires '(' !in s
    ensures Depth(s, c) <= c
    decreases |s|
  {
    if s != [] {
      assert s[0] in s;
      assert forall ch :: ch in s[1..] ==> ch in s;
      DepthNoOpen(s[1..], DepthStep(s[0], c));
    }
  }

  lemma {:induction false} DepthNoClose(s: string, c: nat)
    requires ')' !in s
    ensures Depth(s, c) >= c
    decreases |s|
  {
    if s != [] {
      assert s[0] in s;
      assert forall ch :: ch in s[1..] ==> ch in s;
      DepthNoClose(s[1..], DepthStep(s[0], c));
    }
  }

  /** Replacing a closed group by bracket-free text keeps the depth. */
  lemma DepthSplice(q: string, s: nat, e: nat, ph: string)
    requires s < e < |q| && q[s] == '(' && q[e] == ')' && Plain(q, s, e)
    requires '(' !in ph && ')' !in ph
    ensures Depth(q[..s] + ph + q[e + 1..], 0) == Depth(q, 0)
  {
    DepthAroundGroup(q, s, e);
    DepthAroundText(q[..s], ph, q[e + 1..]);
  }

  /** A closed group without brackets inside leaves the depth as it found it. */
  lemma DepthAroundGroup(q: string, s: nat, e: nat)
    requires s < e < |q| && q[s] == '(' && q[e] == ')' && Plain(q, s, e)
    ensures Depth(q, 0) == Depth(q[e + 1..], Depth(q[..s], 0))
  {
    var g := q[s..e + 1];
    assert q == q[..s] + g + q[e + 1..];
    DepthAppend(q[..s] + g, q[e + 1..], 0);
    DepthAppend(q[..s], g, 0);
    DepthGroup(q, s, e, Depth(q[..s], 0));
  }

  lemma DepthGroup(q: string, s: nat, e: nat, c: nat)
    requires s < e < |q| && q[s] == '(' && q[e] == ')' && Plain(q, s, e)
    ensures Depth(q[s..e + 1], c) == c
  {
    var mid := q[s + 1..e];
    assert '(' !in mid && ')' !in mid;
    assert q[s..e + 1] == [q[s]] + mid + [q[e]];
    DepthAppend([q[s]] + mid, [q[e]], c);
    DepthAppend([q[s]], mid, c);
    DepthPlain(mid, c + 1);
  }

  /** Bracket-free text leaves the depth as it found it. */
  lemma DepthAroundText(a: string, ph: string, b: string)
    requires '(' !in ph && ')' !in ph
    ensures Depth(a + ph + b, 0) == Depth(b, Depth(a, 0))
  {
    DepthAppend(a + ph, b, 0);
    DepthAppend(a, ph, 0);
    DepthPlain(ph, Depth(a, 0));
  }

  /** Without a closing bracket after some `(` the depth stays positive. */
  lemma DepthUnmatched(q: string, a: nat)
    requires a < |q| && q[a] == '(' && Unmatched(q, |q|)
    ensures Depth(q, 0) > 0
  {
    var rest := q[a + 1..];
    assert ')' !in rest;
    assert q == q[..a] + ([q[a]] + rest);
    DepthAppend(q[..a], [q[a]] + rest, 0);
    DepthAppend([q[a]], rest, Depth(q[..a], 0));
    DepthNoClose(rest, Depth(q[..a], 0) + 1);
  }

  /** The documents of the flat evaluation of a group's inside. */
  function InnerIds(stem: string -> string, ix: Index, q: string, s: nat, e: nat): seq<int>
    requires s < e <= |q|
  {
    Flat(stem, ix, Strip(q[s + 1..e]))
  }

  /** The query with a group replaced by text. */
  function Spliced(q: string, s: nat, e: nat, ph: string): string
    requires s < e < |q|
  {
    q[..s] + ph + q[e + 1..]
  }

  /** One bracket step: the query fails exactly when its rewritten form fails. */
  lemma BracketedStep(stem: string -> string, ix: Index, hash: seq<int> -> int, q: string, s: nat, e: nat)
    requires '(' in q && FindGroup(q) == Some((s, e))
    ensures s < e < |q|
    ensures Bracketed(stem, ix, hash, q).RecursionError? <==>
      Bracketed(stem, ix, hash, Spliced(q, s, e, Placeholder(hash(InnerIds(stem, ix, q, s, e))))).RecursionError?
  {
    var inner := Strip(q[s + 1..e]);
    InnerCount(q, s, e);
    assert '(' !in inner;
    assert Boolean(stem, ix, hash, inner) == Docs(Flat(stem, ix, inner));
  }

  /** An unmatched `(` is exactly what makes bracket processing fail: the
      answer is `RecursionError` if and only if some bracket is left open. */
  lemma {:induction false} FailsIffUnclosed(stem: string -> string, ix: Index, hash: seq<int> -> int, q: string)
    ensures Bracketed(stem, ix, hash, q).RecursionError? <==> Depth(q, 0) > 0
    decreases ParenCount(q)
  {
    if '(' !in q {
      DepthNoOpen(q, 0);
      assert Bracketed(stem, ix, hash, q) == Docs(Flat(stem, ix, q));
    } else {
      match FindGroup(q)
      case None =>
        var a :| 0 <= a < |q| && q[a] == '(';
        DepthUnmatched(q, a);
      case Some((s, e)) =>
        var ph := Placeholder(hash(InnerIds(stem, ix, q, s, e)));
        var nq := Spliced(q, s, e, ph);
        BracketedStep(stem, ix, hash, q, s, e);
        SpliceCount(q, s, e, ph);
        DepthSplice(q, s, e, ph);
        FailsIffUnclosed(stem, ix, hash, nq);
    }
  }

  // ---------------------------------------------------------------------
  // A query ending in one group

  lemma {:induction false} GroupFromSkip(q: string, i: nat, j: nat, top: Option<nat>)
    requires i <= j <= |q|
    requires forall k :: i <= k < j ==> q[k] != '(' && q[k] != ')'
    ensures GroupFrom(q, i, top) == GroupFrom(q, j, top)
    decreases j - i
  {
    if i < j {
      GroupFromSkip(q, i + 1, j, top);
    }
  }

  /** In bracket-free text followed by one `(...)` group, that group is found. */
  lemma FindGroupOf(a: string, b: string, c: string)
    requires '(' !in a && ')' !in a && '(' !in b && ')' !in b
    ensures FindGroup(a + "(" + b + ")" + c) == Some((|a|, |a| + |b| + 1))
  {
    var q := a + "(" + b + ")" + c;
    var n := |a|;
    assert forall k :: 0 <= k < n ==> q[k] == a[k] && q[k] in a;
    assert forall k :: n < k < n + 1 + |b| ==> q[k] == b[k - n - 1] && q[k] in b;
    GroupFromSkip(q, 0, n, None);
    GroupFromSkip(q, n + 1, n + 1 + |b|, Some(n));
  }

  /** A word query cannot be the placeholder, which holds `_`. */
  lemma WordsMissPlaceholder(t0: string, rest: seq<Clause>, ph: string)
    requires WellWorded(t0, rest) && '_' in ph
    ensures t0 != ph && forall k :: 0 <= k < |rest| ==> rest[k].term != ph
  {
    forall k | 0 <= k < |rest| ensures rest[k].term != ph {
      assert IsWord(rest[k].term);
    }
  }

  /** The closing fold over a flat query ending in the placeholder applies the
      last operator to the group's documents. */
  lemma RegroupedEnd(stem: string -> string, ix: Index, t0: string, rest: seq<Clause>, op: string, h: int, docs: set<int>)
    requires WellWorded(t0, rest) && op in Operators
    ensures var ph := Placeholder(h);
      Regrouped(stem, ix, Render(t0, rest + [Clause(op, ph)]), Group(ph, docs)) ==
        SortSet(Apply(op, Combine(stem, ix, None, TermDocs(stem, ix, t0), rest), docs))
  {
    var g := Group(Placeholder(h), docs);
    var c := Clause(op, g.placeholder);
    var rest' := rest + [c];
    assert WellSpelled(t0, rest') by {
      assert forall k :: 0 <= k < |rest| ==> rest'[k] == rest[k];
    }
    SplitRender(t0, rest');
    var toks := [t0] + Pairs(rest');
    assert toks[1..] == Pairs(rest') + [];
    WordsMissPlaceholder(t0, rest, g.placeholder);
    assert forall k :: 0 <= k < |rest'| ==> rest'[k].term != "" by {
      assert forall k :: 0 <= k < |rest| ==> rest'[k] == rest[k];
    }
    FoldPairs(stem, ix, Some(g), TermDocs(stem, ix, t0), rest', []);
    CombineAppend(stem, ix, Some(g), TermDocs(stem, ix, t0), rest, c);
    CombineIgnoresGroup(stem, ix, g, TermDocs(stem, ix, t0), rest);
  }

  /** A query with a single group: the group is evaluated flat, and the answer
      is the closing fold over the query with the group replaced by its
      placeholder. */
  lemma SingleGroup(stem: string -> string, ix: Index, hash: seq<int> -> int, q: string, s: nat, e: nat,
                    b: string, innerIds: seq<int>, ph: string)
    requires '(' in q && FindGroup(q) == Some((s, e))
    requires Strip(q[s + 1..e]) == b && innerIds == Flat(stem, ix, b) && ph == Placeholder(hash(innerIds))
    requires '(' !in Spliced(q, s, e, ph)
    ensures Bracketed(stem, ix, hash, q) == Docs(Regrouped(stem, ix, Spliced(q, s, e, ph), Group(ph, Elements(innerIds))))
  {
    InnerCount(q, s, e);
    assert '(' !in b;
    assert Boolean(stem, ix, hash, b) == Docs(innerIds);
    var nq := Spliced(q, s, e, ph);
    var final := Flat(stem, ix, nq);
    assert Bracketed(stem, ix, hash, nq) == Docs(final);
    if |final| == 1 {
      GuardNeverHolds(final[0]);
    }
    assert BracketStep(stem, ix, hash, q, s, e) == Docs(Regrouped(stem, ix, nq, Group(ph, Elements(innerIds))));
  }

  /** The parts of a query `t0 op1 t1 ... op (u0 ...)` ending in one group. */
  predicate EndGroupParts(t0: string, rest: seq<Clause>, op: string, u0: string, urest: seq<Clause>) {
    WellWorded(t0, rest) && op in Operators && WellWorded(u0, urest)
  }

  /** `q` is the query `a(b)` made of those parts, `a` ending in the operator. */
  predicate EndGroupText(t0: string, rest: seq<Clause>, op: string, u0: string, urest: seq<Clause>,
                         a: string, b: string, q: string) {
    EndGroupParts(t0, rest, op, u0, urest) &&
    a == Render(t0, rest) + " " + op + " " && b == Render(u0, urest) && q == a + "(" + b + ")"
  }

  /** The string facts behind a query ending in one group: where the group
      is, what its stripped inside is, and what the query becomes once the
      group is replaced. */
  lemma EndGroupShape(t0: string, rest: seq<Clause>, op: string, u0: string, urest: seq<Clause>, ph: string,
                      a: string, b: string, q: string, s: nat, e: nat)
    requires EndGroupText(t0, rest, op, u0, urest, a, b, q)
    requires Unspaced(ph) && '(' !in ph
    requires s == |a| && e == |a| + |b| + 1
    ensures '(' in q && s < e < |q| && FindGroup(q) == Some((s, e))
    ensures Strip(q[s + 1..e]) == b
    ensures Spliced(q, s, e, ph) == Render(t0, rest + [Clause(op, ph)])
    ensures '(' !in Spliced(q, s, e, ph)
  {
    assert '(' !in a && ')' !in a && '(' !in b && ')' !in b by {
      RenderChars(t0, rest);
      RenderChars(u0, urest);
      assert forall c :: c in op ==> IsLetter(c);
    }
    assert Strip(b) == b by {
      RenderChars(u0, urest);
      StripUnchanged(b);
    }
    GroupShape(a, b, q, ph, s, e);
    RenderAppend(t0, rest, Clause(op, ph));
  }

  /** The one group of `a(b)` with neither part holding a bracket. */
  lemma GroupShape(a: string, b: string, q: string, ph: string, s: nat, e: nat)
    requires '(' !in a && ')' !in a && '(' !in b && ')' !in b
    requires q == a + "(" + b + ")" && s == |a| && e == |a| + |b| + 1
    ensures '(' in q && s < e < |q| && FindGroup(q) == Some((s, e))
    ensures q[s + 1..e] == b && Spliced(q, s, e, ph) == a + ph
  {
    FindGroupOf(a, b, "");
    assert a + "(" + b + ")" + "" == q;
    assert q[s] == '(';
    assert q[..s] == a && q[s + 1..e] == b && q[e + 1..] == [];
  }

  /** Bracket processing of a query ending in one group is the closing fold
      over the query with that group replaced by its placeholder. */
  lemma EndGroupRegrouped(stem: string -> string, ix: Index, hash: seq<int> -> int,
                          t0: string, rest: seq<Clause>, op: string, u0: string, urest: seq<Clause>,
                          a: string, b: string, q: string)
    requires EndGroupText(t0, rest, op, u0, urest, a, b, q)
    ensures var innerIds := Flat(stem, ix, b);
      var ph := Placeholder(hash(innerIds));
      Bracketed(stem, ix, hash, q) ==
        Docs(Regrouped(stem, ix, Render(t0, rest + [Clause(op, ph)]), Group(ph, Elements(innerIds))))
  {
    var s: nat, e: nat := |a|, |a| + |b| + 1;
    var innerIds := Flat(stem, ix, b);
    var ph := Placeholder(hash(innerIds));
    EndGroupShape(t0, rest, op, u0, urest, ph, a, b, q, s, e);
    SingleGroup(stem, ix, hash, q, s, e, b, innerIds, ph);
  }

  /** The query `a(b)` ending in one group, evaluated. */
  lemma EndGroupAnswer(stem: string -> string, ix: Index, hash: seq<int> -> int,
                       t0: string, rest: seq<Clause>, op: string, u0: string, urest: seq<Clause>,
                       a: string, b: string, q: string)
    requires EndGroupText(t0, rest, op, u0, urest, a, b, q)
    ensures Bracketed(stem, ix, hash, q) ==
      Docs(SortSet(Apply(op, Combine(stem, ix, None, TermDocs(stem, ix, t0), rest), Elements(Flat(stem, ix, b)))))
  {
    var innerIds := Flat(stem, ix, b);
    var h := hash(innerIds);
    EndGroupRegrouped(stem, ix, hash, t0, rest, op, u0, urest, a, b, q);
    RegroupedEnd(stem, ix, t0, rest, op, h, Elements(innerIds));
  }

  /** A query ending in one bracket group, like `computer AND science NOT
      (Times AND Series)`: the group is evaluated flat and the last operator
      applies to its documents after the terms before it are combined. */
  lemma GroupAtEnd(stem: string -> string, ix: Index, hash: seq<int> -> int,
                   t0: string, rest: seq<Clause>, op: string, u0: string, urest: seq<Clause>)
    requires EndGroupParts(t0, rest, op, u0, urest)
    ensures Bracketed(stem, ix, hash, Render(t0, rest) + " " + op + " (" + Render(u0, urest) + ")") ==
      Docs(SortSet(Apply(op, Combine(stem, ix, None, TermDocs(stem, ix, t0), rest),
                             Elements(Flat(stem, ix, Render(u0, urest))))))
  {
    var a := Render(t0, rest) + " " + op + " ";
    var b := Render(u0, urest);
    var q := a + "(" + b + ")";
    assert EndGroupText(t0, rest, op, u0, urest, a, b, q);
    assert Render(t0, rest) + " " + op + " (" + b + ")" == q;
    EndGroupAnswer(stem, ix, hash, t0, rest, op, u0, urest, a, b, q);
  }
}
