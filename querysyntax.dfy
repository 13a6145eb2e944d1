/** The lexical side of Boolean queries: `re.split(r'\s+(AND|OR|NOT)\s+', q)`,
    which cuts a query into terms and the operators between them. */
module QuerySyntax {
  import opened Wrappers
  import opened Text

  const Operators: set<string> := {"AND", "OR", "NOT"}

  /** A string with no whitespace at all, such as a single query word. */
  predicate Unspaced(w: string) {
    |w| > 0 && forall c :: c in w ==> !IsSpace(c)
  }

  /** A query word: letters and digits only. */
  predicate IsWord(w: string) {
    |w| > 0 && forall c :: c in w ==> IsLetter(c) || IsDigit(c)
  }

  /** The operator spelled at `j`, or "" when there is none there. */
  function OperatorAt(s: string, j: nat): (op: string)
    ensures op == "" || (op in Operators && HasAt(s, j, op))
  {
    if HasAt(s, j, "AND") then "AND"
    else if HasAt(s, j, "OR") then "OR"
    else if HasAt(s, j, "NOT") then "NOT"
    else ""
  }

  /** Only one operator can be spelled at a place, as their first letters differ. */
  lemma OperatorAtIs(s: string, j: nat, op: string)
    requires op in Operators && HasAt(s, j, op)
    ensures OperatorAt(s, j) == op
  {
    assert s[j] == s[j..j + |op|][0] == op[0];
  }

  /** The match of `\s+(AND|OR|NOT)\s+` that starts at `i`, if any: the operator
      and the end of the match. Both whitespace runs are greedy, and giving
      characters back never helps, since the character after a shorter run is
      itself whitespace. The three operators begin with different letters, so
      at most one of them can follow the first run. */
  function MatchAt(s: string, i: nat): (r: Option<(string, nat)>)
    requires i <= |s|
    ensures r.Some? ==> r.value.0 in Operators && i < r.value.1 <= |s|
  {
    var j := RunEnd(s, i, IsSpace, true);
    if j == i then None
    else
      var op := OperatorAt(s, j);
      if op == "" then None
      else
        var e := RunEnd(s, j + |op|, IsSpace, true);
        if e == j + |op| then None else Some((op, e))
  }

  /** The leftmost match starting at or after `i`: its start, operator and end. */
  function FirstMatch(s: string, i: nat): (r: Option<(nat, string, nat)>)
    requires i <= |s|
    ensures r.Some? ==> i <= r.value.0 < r.value.2 <= |s| && r.value.1 in Operators
    decreases |s| - i
  {
    match MatchAt(s, i)
    case Some((op, e)) => Some((i, op, e))
    case None => if i == |s| then None else FirstMatch(s, i + 1)
  }

  /** `re.split` with the operator captured: the text before the first match,
      the operator, and the split of the rest. Terms sit at even indices and
      operators at odd ones. */
  function Split(s: string): (r: seq<string>)
    ensures |r| >= 1
    decreases |s|
  {
    match FirstMatch(s, 0)
    case None => [s]
    case Some((i, op, e)) => [s[..i], op] + Split(s[e..])
  }

  /** Skipping positions where nothing matches does not change the leftmost match. */
  lemma {:induction false} FirstMatchSkip(s: string, i: nat, j: nat)
    requires i <= j <= |s|
    requires forall k :: i <= k < j ==> MatchAt(s, k).None?
    ensures FirstMatch(s, i) == FirstMatch(s, j)
    decreases j - i
  {
    if i < j {
      assert MatchAt(s, i).None?;
      assert FirstMatch(s, i) == FirstMatch(s, i + 1);
      FirstMatchSkip(s, i + 1, j);
    }
  }

  /** No match can start where no whitespace follows. */
  lemma NoMatchBeforeText(s: string, i: nat)
    requires i <= |s|
    requires forall k :: i < k < |s| ==> !IsSpace(s[k])
    ensures MatchAt(s, i).None?
  {
  }

  /** A string without whitespace is a single term. */
  lemma SplitUnspaced(w: string)
    requires forall c :: c in w ==> !IsSpace(c)
    ensures Split(w) == [w]
  {
    forall k | 0 <= k <= |w| ensures MatchAt(w, k).None? {
      assert forall m :: k < m < |w| ==> w[m] in w;
      NoMatchBeforeText(w, k);
    }
    FirstMatchSkip(w, 0, |w|);
  }

  /** Two words joined by one space are a single term, even when the first
      is an operator: the pattern needs whitespace on both sides of it. */
  lemma SplitTwoWords(t: string, w: string)
    requires Unspaced(t) && forall c :: c in w ==> !IsSpace(c)
    ensures Split(t + " " + w) == [t + " " + w]
  {
    var s := t + " " + w;
    assert s[..|t|] == t;
    NoMatchInTerm(t, s);
    UnspacedAfter(t, w, s);
    NoMatchInTail(s, |t|);
  }

  /** No match starts at or after `n` when no whitespace follows `n`. */
  lemma NoMatchInTail(s: string, n: nat)
    requires n <= |s|
    requires forall m :: n < m < |s| ==> !IsSpace(s[m])
    ensures FirstMatch(s, n).None?
  {
    forall k | n <= k <= |s| ensures MatchAt(s, k).None? {
      NoMatchBeforeText(s, k);
    }
    FirstMatchSkip(s, n, |s|);
  }

  /** A term, one space, an operator and one space: the split starts with that
      term and that operator and goes on with whatever follows. */
  lemma SplitStep(t: string, op: string, u: string)
    requires Unspaced(t) && op in Operators
    requires u == [] || !IsSpace(u[0])
    ensures Split(t + " " + op + " " + u) == [t, op] + Split(u)
  {
    var s := t + " " + op + " " + u;
    var n := |t|;
    var e := n + |op| + 2;
    NoMatchInTerm(t, s);
    OperatorMatch(t, op, u, s);
    assert s[..n] == t && s[e..] == u;
    SplitAt(s, n, op, e);
  }

  /** Nothing matches inside a leading term. */
  lemma NoMatchInTerm(t: string, s: string)
    requires Unspaced(t) && |t| <= |s| && s[..|t|] == t
    ensures FirstMatch(s, 0) == FirstMatch(s, |t|)
  {
    var n := |t|;
    assert forall k :: 0 <= k < n ==> s[k] == t[k] && s[k] in t;
    forall k | 0 <= k < n ensures MatchAt(s, k).None? {
      assert RunEnd(s, k, IsSpace, true) == k;
    }
    FirstMatchSkip(s, 0, n);
  }

  /** One space, an operator and one space before text match there. */
  lemma OperatorMatch(t: string, op: string, u: string, s: string)
    requires op in Operators && (u == [] || !IsSpace(u[0]))
    requires s == t + " " + op + " " + u
    ensures MatchAt(s, |t|) == Some((op, |t| + |op| + 2))
  {
    SpaceBeforeOperator(t, op, u, s);
    OperatorAfterSpace(t, op, u, s);
    SpaceAfterOperator(t, op, u, s);
  }

  lemma SpaceBeforeOperator(t: string, op: string, u: string, s: string)
    requires op in Operators
    requires s == t + " " + op + " " + u
    ensures RunEnd(s, |t|, IsSpace, true) == |t| + 1
  {
    var n := |t|;
    assert s[n] == ' ';
    assert s[n + 1] == op[0] && !IsSpace(op[0]);
    RunEndIs(s, n, n + 1, IsSpace, true);
  }

  lemma OperatorAfterSpace(t: string, op: string, u: string, s: string)
    requires op in Operators
    requires s == t + " " + op + " " + u
    ensures OperatorAt(s, |t| + 1) == op
  {
    var j := |t| + 1;
    assert s == (t + " ") + op + (" " + u);
    assert s[j..j + |op|] == op;
    OperatorAtIs(s, j, op);
  }

  lemma SpaceAfterOperator(t: string, op: string, u: string, s: string)
    requires u == [] || !IsSpace(u[0])
    requires s == t + " " + op + " " + u
    ensures RunEnd(s, |t| + 1 + |op|, IsSpace, true) == |t| + |op| + 2
  {
    var m := |t| + 1 + |op|;
    assert s == (t + " " + op) + (" " + u);
    assert s[m] == ' ';
    assert m + 1 < |s| ==> s[m + 1] == u[0];
    RunEndIs(s, m, m + 1, IsSpace, true);
  }

  lemma SplitAt(s: string, i: nat, op: string, e: nat)
    requires FirstMatch(s, 0) == Some((i, op, e))
    ensures i <= e <= |s| && Split(s) == [s[..i], op] + Split(s[e..])
  {
  }

  lemma AppendAssoc(a: string, b: string, c: string)
    ensures (a + b) + c == a + (b + c)
  {
  }

  lemma Regroup(x: string, y: string, z: string, ps: seq<string>, qs: seq<string>)
    ensures [x, y] + ([z] + ps + qs) == [x] + ([y, z] + ps) + qs
  {
  }

  /** One clause `op term` of a flat query. */
  datatype Clause = Clause(op: string, term: string)

  predicate WellSpelled(t0: string, rest: seq<Clause>) {
    Unspaced(t0) && forall k :: 0 <= k < |rest| ==> rest[k].op in Operators && Unspaced(rest[k].term)
  }

  /** A flat query over words only. */
  predicate WellWorded(t0: string, rest: seq<Clause>) {
    IsWord(t0) && forall k :: 0 <= k < |rest| ==> rest[k].op in Operators && IsWord(rest[k].term)
  }

  lemma WordsAreSpelled(t0: string, rest: seq<Clause>)
    requires WellWorded(t0, rest)
    ensures WellSpelled(t0, rest)
  {
  }

  /** A flat query written the usual way: terms and operators separated by single spaces. */
  function Render(t0: string, rest: seq<Clause>): string
    decreases |rest|
  {
    if rest == [] then t0 else t0 + " " + rest[0].op + " " + Render(rest[0].term, rest[1..])
  }

  /** The operators and terms after the first term, in order. */
  function Pairs(rest: seq<Clause>): (r: seq<string>)
    ensures |r| == 2 * |rest|
  {
    if rest == [] then [] else [rest[0].op, rest[0].term] + Pairs(rest[1..])
  }

  lemma {:induction false} RenderStartsWith(t0: string, rest: seq<Clause>)
    ensures |Render(t0, rest)| >= |t0| && Render(t0, rest)[..|t0|] == t0
    decreases |rest|
  {
    if rest != [] {
      RenderStartsWith(rest[0].term, rest[1..]);
    }
  }

  /** Splitting a rendered query gives back its terms and operators. */
  lemma {:induction false} SplitRender(t0: string, rest: seq<Clause>)
    requires WellSpelled(t0, rest)
    ensures Split(Render(t0, rest)) == [t0] + Pairs(rest)
    decreases |rest|
  {
    if rest == [] {
      SplitUnspaced(t0);
    } else {
      assert WellSpelled(rest[0].term, rest[1..]);
      SplitRender(rest[0].term, rest[1..]);
      var r1 := Render(rest[0].term, rest[1..]);
      assert r1 + "" == r1;
      assert [rest[0].term] + Pairs(rest[1..]) + [] == [rest[0].term] + Pairs(rest[1..]);
      SplitRenderCons(t0, rest[0], rest[1..], "", []);
      assert [rest[0]] + rest[1..] == rest;
      assert Render(t0, rest) + "" == Render(t0, rest);
      assert [t0] + Pairs(rest) + [] == [t0] + Pairs(rest);
    }
  }

  /** The induction step of the two lemmas around it: one more clause in front. */
  lemma SplitRenderCons(t0: string, c: Clause, r: seq<Clause>, tail: string, tailToks: seq<string>)
    requires Unspaced(t0) && c.op in Operators && Unspaced(c.term)
    requires Split(Render(c.term, r) + tail) == [c.term] + Pairs(r) + tailToks
    ensures Split(Render(t0, [c] + r) + tail) == [t0] + Pairs([c] + r) + tailToks
  {
    var r1 := Render(c.term, r);
    var u := r1 + tail;
    assert u[0] == c.term[0] && c.term[0] in c.term by {
      RenderStartsWith(c.term, r);
    }
    SplitStep(t0, c.op, u);
    var p := t0 + " " + c.op + " ";
    assert ([c] + r)[0] == c && ([c] + r)[1..] == r;
    assert Render(t0, [c] + r) == p + r1;
    AppendAssoc(p, r1, tail);
    var ps := Pairs(r);
    assert Pairs([c] + r) == [c.op, c.term] + ps;
    Regroup(t0, c.op, c.term, ps, tailToks);
  }

  /** A rendered query followed by a dangling operator: the split ends with that
      operator and an empty term. */
  lemma {:induction false} SplitRenderTrailing(t0: string, rest: seq<Clause>, op: string)
    requires WellSpelled(t0, rest) && op in Operators
    ensures Split(Render(t0, rest) + (" " + op + " ")) == [t0] + Pairs(rest) + [op, ""]
    decreases |rest|
  {
    var tail := " " + op + " ";
    if rest == [] {
      SplitStep(t0, op, "");
      assert t0 + " " + op + " " + "" == t0 + tail;
      SplitUnspaced("");
    } else {
      assert WellSpelled(rest[0].term, rest[1..]);
      SplitRenderTrailing(rest[0].term, rest[1..], op);
      SplitRenderCons(t0, rest[0], rest[1..], tail, [op, ""]);
      assert [rest[0]] + rest[1..] == rest;
    }
  }

  /** A rendered query over words consists of letters, digits and spaces, and
      starts and ends with a word character. */
  lemma {:induction false} RenderChars(t0: string, rest: seq<Clause>)
    requires WellWorded(t0, rest)
    ensures var r := Render(t0, rest);
      |r| > 0 && !IsSpace(r[0]) && !IsSpace(r[|r| - 1]) &&
      forall c :: c in r ==> IsLetter(c) || IsDigit(c) || c == ' '
    decreases |rest|
  {
    var r := Render(t0, rest);
    assert t0[0] in t0 && t0[|t0| - 1] in t0;
    if rest != [] {
      var c := rest[0];
      assert IsWord(c.term);
      assert WellWorded(c.term, rest[1..]);
      RenderChars(c.term, rest[1..]);
      var r1 := Render(c.term, rest[1..]);
      assert r == t0 + " " + c.op + " " + r1;
      assert r[0] == t0[0] && r[|r| - 1] == r1[|r1| - 1];
      assert forall ch :: ch in c.op ==> IsLetter(ch);
      forall ch | ch in r ensures IsLetter(ch) || IsDigit(ch) || ch == ' ' {
        assert ch in t0 || ch in " " || ch in c.op || ch in r1;
      }
    }
  }

  /** Appending a clause at the end. */
  lemma RenderAppend(t0: string, rest: seq<Clause>, c: Clause)
    ensures Render(t0, rest + [c]) == Render(t0, rest) + " " + c.op + " " + c.term
    ensures Pairs(rest + [c]) == Pairs(rest) + [c.op, c.term]
  {
    RenderAppendText(t0, rest, c);
    PairsAppend(rest, c);
  }

  lemma {:induction false} RenderAppendText(t0: string, rest: seq<Clause>, c: Clause)
    ensures Render(t0, rest + [c]) == Render(t0, rest) + " " + c.op + " " + c.term
    decreases |rest|
  {
    if rest != [] {
      var head, tail := rest[0], rest[1..];
      assert (rest + [c])[0] == head && (rest + [c])[1..] == tail + [c];
      var pre := t0 + " " + head.op + " ";
      var R := Render(head.term, tail);
      assert Render(t0, rest + [c]) == pre + Render(head.term, tail + [c]);
      assert Render(t0, rest) == pre + R;
      RenderAppendText(head.term, tail, c);
      AppendAfter(pre, R, c.op, c.term);
    }
  }

  lemma AppendAfter(pre: string, r: string, op: string, u: string)
    ensures pre + (r + " " + op + " " + u) == (pre + r) + " " + op + " " + u
  {
  }

  lemma {:induction false} PairsAppend(rest: seq<Clause>, c: Clause)
    ensures Pairs(rest + [c]) == Pairs(rest) + [c.op, c.term]
    decreases |rest|
  {
    if rest != [] {
      assert (rest + [c])[1..] == rest[1..] + [c];
      PairsAppend(rest[1..], c);
    }
  }
}
