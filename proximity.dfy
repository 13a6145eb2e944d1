/** Proximity queries `term1 term2 /k`: the match of `(.*?)\s+(/\s*(\d+))$`
    at the start of the query, the two words of its first group, and the
    documents in which the two stems occur within `k` positions of each other. */
module ProximityQueries {
  import opened Wrappers
  import opened Text
  import opened Sorting
  import opened Indexes

  /** Whether the part of the pattern after the lazy group, `\s+/\s*(\d+)$`,
      matches from position `g`; if so, the span of the digits. The runs of
      whitespace are maximal because neither `/` nor a digit is whitespace,
      and the digit run is maximal because `$` only matches at the end or
      before a final newline. */
  function ProxTail(q: string, g: nat): (r: Option<(nat, nat)>)
    requires g <= |q|
    ensures r.Some? ==> g < r.value.0 < r.value.1 <= |q|
  {
    var j := RunEnd(q, g, IsSpace, true);
    if j == g || j == |q| || q[j] != '/' then None
    else
      var k := RunEnd(q, j + 1, IsSpace, true);
      var d := RunEnd(q, k, IsDigit, true);
      if d == k then None
      else if d == |q| || (d == |q| - 1 && q[d] == '\n') then Some((k, d))
      else None
  }

  /** The span the rest of the pattern reports holds digits only. */
  lemma ProxTailDigits(q: string, g: nat)
    requires g <= |q| && ProxTail(q, g).Some?
    ensures AllDigits(q[ProxTail(q, g).value.0..ProxTail(q, g).value.1])
  {
    var j := RunEnd(q, g, IsSpace, true);
    var k := RunEnd(q, j + 1, IsSpace, true);
    var d := RunEnd(q, k, IsDigit, true);
    forall c | c in q[k..d] ensures IsDigit(c) {
      var x :| 0 <= x < d - k && q[k..d][x] == c;
      assert q[k + x] == c;
    }
  }

  /** The lazy group `(.*?)` tried at lengths `g`, `g + 1`, ...: the first
      length at which the rest matches; `.` does not match a newline, so the
      search stops at one. */
  function ProxSearch(q: string, g: nat): (r: Option<(nat, nat, nat)>)
    requires g <= |q|
    ensures r.Some? ==> g <= r.value.0 <= |q|
    decreases |q| - g
  {
    var t := ProxTail(q, g);
    if t.Some? then Some((g, t.value.0, t.value.1))
    else if g < |q| && q[g] != '\n' then ProxSearch(q, g + 1)
    else None
  }

  /** `re.match(r'(.*?)\s+(/\s*(\d+))$', query)`: the first group and the
      value of the third, or no match. */
  function ProxMatch(q: string): Option<(string, nat)> {
    var r := ProxSearch(q, 0);
    if r.None? then None
    else
      ProxSearchFound(q, 0);
      ProxTailDigits(q, r.value.0);
      Some((q[..r.value.0], DigitsValue(q[r.value.1..r.value.2])))
  }

  /** A search that succeeds finds the shortest first group, free of
      newlines, after which the rest of the pattern matches. */
  lemma {:induction false} ProxSearchFound(q: string, g: nat)
    requires g <= |q| && ProxSearch(q, g).Some?
    ensures var r := ProxSearch(q, g).value;
      ProxTail(q, r.0) == Some((r.1, r.2)) &&
      forall h :: g <= h < r.0 ==> q[h] != '\n' && ProxTail(q, h).None?
    decreases |q| - g
  {
    if ProxTail(q, g).None? {
      ProxSearchFound(q, g + 1);
    }
  }

  /** A search that fails finds no length, up to the first newline, after
      which the rest of the pattern matches. */
  lemma {:induction false} ProxSearchNone(q: string, g: nat)
    requires g <= |q| && ProxSearch(q, g).None?
    ensures forall h :: g <= h <= |q| && (forall x :: g <= x < h ==> q[x] != '\n') ==> ProxTail(q, h).None?
    decreases |q| - g
  {
    if g < |q| && q[g] != '\n' {
      ProxSearchNone(q, g + 1);
    }
  }

  function Abs(x: int): nat {
    if x < 0 then -x else x
  }

  /** Some position in `p1` and some position in `p2` are at most `k` apart. */
  predicate Near(p1: seq<int>, p2: seq<int>, k: int) {
    exists i, j :: 0 <= i < |p1| && 0 <= j < |p2| && Abs(p1[i] - p2[j]) <= k
  }

  /** The documents listed for both stems in which some pair of their
      positions is at most `k` apart. */
  function ProxDocs(ix: Index, t1: string, t2: string, k: int): (r: set<int>)
    ensures forall d :: d in r <==>
      d in Postings(ix, t1) && d in Postings(ix, t2) && Near(Positions(ix, t1, d), Positions(ix, t2, d), k)
  {
    set d | d in Elements(Postings(ix, t1)) * Elements(Postings(ix, t2)) &&
      Near(Positions(ix, t1, d), Positions(ix, t2, d), k)
  }

  /** `_process_proximity_query`: no match, or a first group that does not
      hold exactly two words, gives the empty result; otherwise the matching
      documents in increasing order. */
  function Proximity(stem: string -> string, ix: Index, q: string): seq<int> {
    var m := ProxMatch(q);
    if m.None? then []
    else
      var terms := Words(Lower(m.value.0));
      if |terms| != 2 then []
      else SortSet(ProxDocs(ix, stem(terms[0]), stem(terms[1]), m.value.1))
  }

  /** Closeness does not depend on which term comes first. */
  lemma ProxDocsSymmetric(ix: Index, t1: string, t2: string, k: int)
    ensures ProxDocs(ix, t1, t2, k) == ProxDocs(ix, t2, t1, k)
  {
    forall d ensures Near(Positions(ix, t1, d), Positions(ix, t2, d), k) <==>
                     Near(Positions(ix, t2, d), Positions(ix, t1, d), k) {
      var p1, p2 := Positions(ix, t1, d), Positions(ix, t2, d);
      if Near(p1, p2, k) {
        var i, j :| 0 <= i < |p1| && 0 <= j < |p2| && Abs(p1[i] - p2[j]) <= k;
        assert Abs(p2[j] - p1[i]) <= k;
      }
      if Near(p2, p1, k) {
        var j, i :| 0 <= j < |p2| && 0 <= i < |p1| && Abs(p2[j] - p1[i]) <= k;
        assert Abs(p1[i] - p2[j]) <= k;
      }
    }
  }

  /** A wider window finds every document a narrower one finds. */
  lemma ProxDocsMonotone(ix: Index, t1: string, t2: string, k: int, k': int)
    requires k <= k'
    ensures ProxDocs(ix, t1, t2, k) <= ProxDocs(ix, t1, t2, k')
  {
    forall d | d in ProxDocs(ix, t1, t2, k) ensures d in ProxDocs(ix, t1, t2, k') {
      var p1, p2 := Positions(ix, t1, d), Positions(ix, t2, d);
      var i, j :| 0 <= i < |p1| && 0 <= j < |p2| && Abs(p1[i] - p2[j]) <= k;
      assert Abs(p1[i] - p2[j]) <= k';
    }
  }

  /** The rest of the pattern needs whitespace first. */
  lemma TailNeedsSpace(q: string, h: nat)
    requires h < |q| && !IsSpace(q[h])
    ensures ProxTail(q, h).None?
  {
    RunEndIs(q, h, h, IsSpace, true);
  }

  /** The rest of the pattern needs a slash after the whitespace. */
  lemma TailNeedsSlash(q: string, h: nat)
    requires h + 1 < |q| && IsSpace(q[h]) && !IsSpace(q[h + 1]) && q[h + 1] != '/'
    ensures ProxTail(q, h).None?
  {
    RunEndIs(q, h, h + 1, IsSpace, true);
  }

  /** ` /` followed by digits up to the end, or up to a final newline,
      matches the rest of the pattern. */
  lemma TailDigits(q: string, g: nat, e: nat)
    requires g + 2 < e <= |q| && q[g] == ' ' && q[g + 1] == '/' && AllDigits(q[g + 2..e])
    requires e == |q| || (e == |q| - 1 && q[e] == '\n')
    ensures ProxTail(q, g) == Some((g + 2, e))
  {
    assert forall x :: g + 2 <= x < e ==> q[x] == q[g + 2..e][x - g - 2] && q[g + 2..e][x - g - 2] in q[g + 2..e];
    RunEndIs(q, g, g + 1, IsSpace, true);
    RunEndIs(q, g + 2, g + 2, IsSpace, true);
    RunEndIs(q, g + 2, e, IsDigit, true);
  }

  /** The characters of `a b` other than its space are not whitespace. */
  lemma RenderChars(a: string, b: string, q: string)
    requires forall c :: c in a + b ==> !IsSpace(c)
    requires |b| > 0 && |a| + |b| + 1 <= |q| && q[..|a| + |b| + 1] == a + " " + b
    ensures forall x :: 0 <= x < |a| + |b| + 1 && x != |a| ==> !IsSpace(q[x])
    ensures q[|a|] == ' ' && q[|a| + 1] == b[0]
  {
    var p := a + " " + b;
    assert forall x :: 0 <= x < |a| ==> p[x] == (a + b)[x];
    assert forall x :: |a| < x < |p| ==> p[x] == (a + b)[x - 1];
    assert forall x :: 0 <= x < |a| + |b| ==> (a + b)[x] in a + b;
    assert forall x :: 0 <= x < |p| ==> q[x] == p[x];
  }

  /** In `a b /n`, with `n` digits and nothing or a newline after them, the
      lazy group ends after `b`. */
  lemma RenderSearch(a: string, b: string, n: string, nl: string, q: string)
    requires |a| > 0 && |b| > 0 && b[0] != '/'
    requires forall c :: c in a + b ==> !IsSpace(c)
    requires |n| > 0 && AllDigits(n) && (nl == "" || nl == "\n")
    requires q == a + " " + b + " /" + n + nl
    ensures ProxSearch(q, 0) == Some((|a| + |b| + 1, |a| + |b| + 3, |q| - |nl|))
  {
    var g := |a| + |b| + 1;
    var e := |q| - |nl|;
    assert q[..g] == a + " " + b;
    RenderChars(a, b, q);
    assert q[g] == ' ' && q[g + 1] == '/' && q[g + 2..e] == n;
    assert nl == "\n" ==> q[e] == '\n';
    TailDigits(q, g, e);
    ProxSearchFrom(q, |a|, g, 0);
    ProxSearchHit(q, g);
  }

  /** The query `a b /k` written with single spaces, with or without a final
      newline, matches with first group `a b` and window `k`, provided
      neither word holds whitespace and `b` does not start with a slash. */
  lemma ProxMatchRender(a: string, b: string, k: nat, nl: string, q: string)
    requires |a| > 0 && |b| > 0 && b[0] != '/'
    requires forall c :: c in a + b ==> !IsSpace(c)
    requires (nl == "" || nl == "\n") && q == a + " " + b + " /" + NatToString(k) + nl
    ensures ProxMatch(q) == Some((a + " " + b, k))
  {
    var g := |a| + |b| + 1;
    RenderSearch(a, b, NatToString(k), nl, q);
    assert q[..g] == a + " " + b;
    assert q[g + 2..|q| - |nl|] == NatToString(k);
    NatToStringRoundTrip(k);
  }

  /** Such a query finds the documents in which the stems of the two
      lower-cased words occur within `k` positions of each other. */
  lemma ProximityRender(stem: string -> string, ix: Index, a: string, b: string, k: nat, nl: string, q: string)
    requires |a| > 0 && |b| > 0 && b[0] != '/'
    requires forall c :: c in a + b ==> !IsSpace(c)
    requires (nl == "" || nl == "\n") && q == a + " " + b + " /" + NatToString(k) + nl
    ensures Proximity(stem, ix, q) == SortSet(ProxDocs(ix, stem(Lower(a)), stem(Lower(b)), k))
  {
    ProxMatchRender(a, b, k, nl, q);
    LowerPairWords(a, b);
  }

  /** A proximity query finds the same documents with its two words swapped. */
  lemma ProximityQuerySymmetric(stem: string -> string, ix: Index, a: string, b: string, k: nat)
    requires |a| > 0 && |b| > 0 && a[0] != '/' && b[0] != '/'
    requires forall c :: c in a + b ==> !IsSpace(c)
    ensures Proximity(stem, ix, a + " " + b + " /" + NatToString(k)) ==
      Proximity(stem, ix, b + " " + a + " /" + NatToString(k))
  {
    var q1 := a + " " + b + " /" + NatToString(k);
    var q2 := b + " " + a + " /" + NatToString(k);
    assert q1 + "" == q1 && q2 + "" == q2;
    assert forall c :: c in b + a ==> c in a + b;
    ProximityRender(stem, ix, a, b, k, "", q1);
    ProximityRender(stem, ix, b, a, k, "", q2);
    ProxDocsSymmetric(ix, stem(Lower(a)), stem(Lower(b)), k);
  }

  /** Widening the window of a proximity query loses no document. */
  lemma ProximityQueryMonotone(stem: string -> string, ix: Index, a: string, b: string, k: nat, k': nat)
    requires |a| > 0 && |b| > 0 && b[0] != '/' && k <= k'
    requires forall c :: c in a + b ==> !IsSpace(c)
    ensures forall d :: d in Proximity(stem, ix, a + " " + b + " /" + NatToString(k)) ==>
      d in Proximity(stem, ix, a + " " + b + " /" + NatToString(k'))
  {
    var q1 := a + " " + b + " /" + NatToString(k);
    var q2 := a + " " + b + " /" + NatToString(k');
    assert q1 + "" == q1 && q2 + "" == q2;
    ProximityRender(stem, ix, a, b, k, "", q1);
    ProximityRender(stem, ix, a, b, k', "", q2);
    ProxDocsMonotone(ix, stem(Lower(a)), stem(Lower(b)), k, k');
  }

  /** Lower-casing two words joined by a space and splitting on whitespace
      gives back the two words lower-cased. */
  lemma LowerPairWords(a: string, b: string)
    requires |a| > 0 && |b| > 0
    requires forall c :: c in a + b ==> !IsSpace(c)
    ensures Words(Lower(a + " " + b)) == [Lower(a), Lower(b)]
  {
    LowerAppend(a + " ", b);
    LowerAppend(a, " ");
    assert Lower(a + " " + b) == Lower(a) + " " + Lower(b);
    assert forall c :: c in Lower(a) ==> !IsSpace(c) by {
      assert forall c :: c in a ==> c in a + b;
      forall c | c in Lower(a) ensures !IsSpace(c) {
        var x :| 0 <= x < |a| && Lower(a)[x] == c;
        assert a[x] in a;
      }
    }
    assert forall c :: c in Lower(b) ==> !IsSpace(c) by {
      assert forall c :: c in b ==> c in a + b;
      forall c | c in Lower(b) ensures !IsSpace(c) {
        var x :| 0 <= x < |b| && Lower(b)[x] == c;
        assert b[x] in b;
      }
    }
    WordsOfPair(Lower(a), Lower(b));
  }

  /** In a stretch from `h` to before `g` holding no whitespace but the one
      space at `m`, followed by something other than a slash, the rest of the
      pattern matches nowhere, so the search from `h` comes to the search
      from `g`. */
  lemma {:induction false} ProxSearchFrom(q: string, m: nat, g: nat, h: nat)
    requires h <= g <= |q| && m + 1 < g
    requires forall x :: h <= x < g && x != m ==> !IsSpace(q[x])
    requires q[m] == ' ' && q[m + 1] != '/'
    ensures ProxSearch(q, h) == ProxSearch(q, g)
    decreases g - h
  {
    if h < g {
      if h == m {
        TailNeedsSlash(q, h);
      } else {
        TailNeedsSpace(q, h);
      }
      ProxSearchSkip(q, h);
      ProxSearchFrom(q, m, g, h + 1);
    }
  }

  /** A start at which the rest of the pattern fails and no newline stands
      is skipped. */
  lemma ProxSearchSkip(q: string, h: nat)
    requires h < |q| && q[h] != '\n' && ProxTail(q, h).None?
    ensures ProxSearch(q, h) == ProxSearch(q, h + 1)
  {
  }

  /** A start at which the rest of the pattern matches is the one found. */
  lemma ProxSearchHit(q: string, g: nat)
    requires g <= |q| && ProxTail(q, g).Some?
    ensures ProxSearch(q, g) == Some((g, ProxTail(q, g).value.0, ProxTail(q, g).value.1))
  {
  }
}
