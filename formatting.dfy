/** What `print_results` makes of a result list: each document's file name is
    reduced to the first run of digits in it (or the document id when it has
    none), and the sorted numbers are joined with ", ". */
module Formatting {
  import opened Wrappers
  import opened Text
  import opened Sorting

  predicate NoDigits(s: string) {
    forall c :: c in s ==> !IsDigit(c)
  }

  /** `re.search(r'\d+', name)`: the span of the leftmost maximal run of digits. */
  function DigitSpan(s: string): (r: Option<(nat, nat)>)
    ensures r.Some? ==> r.value.0 < r.value.1 <= |s| && AllDigits(s[r.value.0..r.value.1])
  {
    var i := RunEnd(s, 0, IsDigit, false);
    if i == |s| then None
    else
      var j := RunEnd(s, i, IsDigit, true);
      assert forall c :: c in s[i..j] ==> IsDigit(c) by {
        forall c | c in s[i..j] ensures IsDigit(c) {
          var x :| 0 <= x < j - i && s[i..j][x] == c;
          assert s[i + x] == c;
        }
      }
      Some((i, j))
  }

  /** There is no run of digits exactly when the name holds no digit. */
  lemma DigitSpanNone(s: string)
    ensures DigitSpan(s).None? <==> NoDigits(s)
  {
    var i := RunEnd(s, 0, IsDigit, false);
    if i < |s| {
      assert s[i] in s;
    } else {
      forall c | c in s ensures !IsDigit(c) {
        var x :| 0 <= x < |s| && s[x] == c;
      }
    }
  }

  /** In `p n x`, with no digit in `p`, digits `n` and `x` not starting with a
      digit, the run found is `n`. */
  lemma DigitSpanOf(p: string, n: string, x: string, s: string)
    requires NoDigits(p) && |n| > 0 && AllDigits(n) && (x == [] || !IsDigit(x[0]))
    requires s == p + n + x
    ensures DigitSpan(s) == Some((|p|, |p| + |n|))
  {
    assert forall k :: 0 <= k < |p| ==> s[k] == p[k] && p[k] in p;
    assert forall k :: |p| <= k < |p| + |n| ==> s[k] == n[k - |p|] && n[k - |p|] in n;
    RunEndIs(s, 0, |p|, IsDigit, false);
    RunEndIs(s, |p|, |p| + |n|, IsDigit, true);
  }

  /** The number printed for a document: the value of the first run of
      digits in its file name, or the document id when there is none. */
  function FileNumber(name: string, id: int): int {
    var sp := DigitSpan(name);
    if sp.None? then id else DigitsValue(name[sp.value.0..sp.value.1])
  }

  /** A file name such as `12.txt` or `doc_12.txt` prints as its number. */
  lemma FileNumberOf(p: string, n: nat, x: string, id: int)
    requires NoDigits(p) && (x == [] || !IsDigit(x[0]))
    ensures FileNumber(p + NatToString(n) + x, id) == n
  {
    var ds := NatToString(n);
    var s := p + ds + x;
    DigitSpanOf(p, ds, x, s);
    assert s[|p|..|p| + |ds|] == ds;
    NatToStringRoundTrip(n);
  }

  /** A file name without digits prints as the document id. */
  lemma FileNumberNoDigits(name: string, id: int)
    requires NoDigits(name)
    ensures FileNumber(name, id) == id
  {
    DigitSpanNone(name);
  }

  /** The numbers of the listed documents in list order, or the first listed
      id that names no document (`self.doc_ids[doc_id]` raising `KeyError`). */
  datatype Numbered = Numbers(ns: seq<int>) | Missing(id: int)

  function NumbersOf(docIds: map<int, string>, ids: seq<int>): Numbered
    decreases |ids|
  {
    if ids == [] then Numbers([])
    else
      var r := NumbersOf(docIds, ids[..|ids| - 1]);
      var d := ids[|ids| - 1];
      if r.Missing? then r
      else if d !in docIds then Missing(d)
      else Numbers(r.ns + [FileNumber(docIds[d], d)])
  }

  /** The numbers line up with the ids, and the missing id is the first one
      the map lacks; the lookup fails exactly when some id is missing. */
  lemma {:induction false} NumbersOfFacts(docIds: map<int, string>, ids: seq<int>)
    ensures var r := NumbersOf(docIds, ids);
      (r.Numbers? ==> |r.ns| == |ids| && forall k :: 0 <= k < |ids| ==> ids[k] in docIds && r.ns[k] == FileNumber(docIds[ids[k]], ids[k]))
    ensures var r := NumbersOf(docIds, ids);
      (r.Missing? ==> exists k :: 0 <= k < |ids| && ids[k] == r.id && r.id !in docIds && forall l :: 0 <= l < k ==> ids[l] in docIds)
    ensures NumbersOf(docIds, ids).Missing? <==> exists k :: 0 <= k < |ids| && ids[k] !in docIds
    decreases |ids|
  {
    if ids != [] {
      var front := ids[..|ids| - 1];
      NumbersOfFacts(docIds, front);
      assert forall k :: 0 <= k < |front| ==> front[k] == ids[k];
      var r := NumbersOf(docIds, front);
      if r.Missing? {
        var k :| 0 <= k < |front| && front[k] == r.id && r.id !in docIds && forall l :: 0 <= l < k ==> front[l] in docIds;
        assert ids[k] == r.id;
      }
    }
  }

  /** Once a prefix of the ids meets one that names no document, the whole
      list stops there. */
  lemma {:induction false} MissingPersists(docIds: map<int, string>, ids: seq<int>, n: nat)
    requires n <= |ids| && NumbersOf(docIds, ids[..n]).Missing?
    ensures NumbersOf(docIds, ids) == NumbersOf(docIds, ids[..n])
    decreases |ids| - n
  {
    if n < |ids| {
      assert ids[..n + 1][..n] == ids[..n];
      MissingPersists(docIds, ids, n + 1);
    } else {
      assert ids[..n] == ids;
    }
  }

  /** What a call of `print_results` comes to: nothing to print for an empty
      list, a `KeyError` for an id without a file name, or the text after
      `Result-Set: `. */
  datatype Printed = NoMatches | MissingDoc(id: int) | ResultSet(text: string)

  function Decimals(ns: seq<int>): (r: seq<string>)
    ensures |r| == |ns| && forall k :: 0 <= k < |ns| ==> r[k] == IntToString(ns[k])
  {
    seq(|ns|, k requires 0 <= k < |ns| => IntToString(ns[k]))
  }

  function FormatResults(docIds: map<int, string>, ids: seq<int>): Printed {
    if ids == [] then NoMatches
    else
      var r := NumbersOf(docIds, ids);
      if r.Missing? then MissingDoc(r.id)
      else ResultSet(JoinWith(Decimals(SortList(r.ns)), ", "))
  }

  /** Nothing is printed for an empty list only; the lookup fails exactly
      when some listed id names no document, and then on the first such id. */
  lemma FormatCases(docIds: map<int, string>, ids: seq<int>)
    ensures FormatResults(docIds, ids) == NoMatches <==> ids == []
    ensures FormatResults(docIds, ids).MissingDoc? <==> exists k :: 0 <= k < |ids| && ids[k] !in docIds
    ensures FormatResults(docIds, ids).MissingDoc? ==>
      exists k :: 0 <= k < |ids| && ids[k] == FormatResults(docIds, ids).id && ids[k] !in docIds &&
        forall l :: 0 <= l < k ==> ids[l] in docIds
  {
    NumbersOfFacts(docIds, ids);
  }

  /** Each `, `-separated field after the first starts with a space. */
  function Spaced(parts: seq<string>): (r: seq<string>)
    ensures |r| == |parts| && forall k :: 0 <= k < |parts| ==> r[k] == " " + parts[k]
  {
    seq(|parts|, k requires 0 <= k < |parts| => " " + parts[k])
  }

  /** Splitting the joined text at the commas gives back the parts, all but
      the first behind the space of the separator. */
  lemma {:induction false} SplitJoined(pre: string, parts: seq<string>)
    requires |parts| > 0 && ',' !in pre
    requires forall k :: 0 <= k < |parts| ==> ',' !in parts[k]
    ensures SplitChar(pre + JoinWith(parts, ", "), ',') == [pre + parts[0]] + Spaced(parts[1..])
    decreases |parts|
  {
    if |parts| == 1 {
      SplitCharPlain(pre + parts[0], ',');
      assert Spaced(parts[1..]) == [];
    } else {
      var tail := parts[1..];
      var rest := JoinWith(tail, ", ");
      assert pre + JoinWith(parts, ", ") == (pre + parts[0]) + [','] + (" " + rest);
      SplitCharAt(pre + parts[0], ',', " " + rest);
      assert forall k :: 0 <= k < |tail| ==> tail[k] == parts[k + 1];
      SplitJoined(" ", tail);
      assert " " + rest == " " + JoinWith(tail, ", ");
      assert Spaced(parts[1..]) == [" " + tail[0]] + Spaced(tail[1..]);
    }
  }

  /** `int(field)` on each field. */
  function ParseAll(fields: seq<string>): Option<seq<int>> {
    if fields == [] then Some([])
    else
      var head := ParseInt(fields[0]);
      var rest := ParseAll(fields[1..]);
      if head.None? || rest.None? then None else Some([head.value] + rest.value)
  }

  lemma ParseSpaced(i: int)
    ensures ParseInt(" " + IntToString(i)) == Some(i)
  {
    var r := IntToString(i);
    assert r[|r| - 1] in r;
    assert (" " + r)[1..] == r;
    assert TrimStart(" " + r) == TrimStart(r);
    IntToStringRoundTrip(i);
  }

  lemma ParseAllCons(fields: seq<string>, x: int, rest: seq<int>)
    requires fields != [] && ParseInt(fields[0]) == Some(x) && ParseAll(fields[1..]) == Some(rest)
    ensures ParseAll(fields) == Some([x] + rest)
  {
  }

  lemma {:induction false} ParseAllDecimals(ns: seq<int>, fields: seq<string>)
    requires fields == Spaced(Decimals(ns))
    ensures ParseAll(fields) == Some(ns)
    decreases |ns|
  {
    if ns != [] {
      assert fields[0] == " " + IntToString(ns[0]);
      ParseSpaced(ns[0]);
      SpacedTail(ns);
      ParseAllDecimals(ns[1..], fields[1..]);
      ParseAllCons(fields, ns[0], ns[1..]);
      assert [ns[0]] + ns[1..] == ns;
    }
  }

  lemma SpacedTail(ns: seq<int>)
    requires ns != []
    ensures Spaced(Decimals(ns))[1..] == Spaced(Decimals(ns[1..]))
  {
  }

  /** The printed result set parses back, field by field, into the file
      numbers in ascending order. */
  lemma FormatReadBack(docIds: map<int, string>, ids: seq<int>)
    requires FormatResults(docIds, ids).ResultSet?
    ensures var ns := NumbersOf(docIds, ids).ns;
      ParseAll(SplitChar(FormatResults(docIds, ids).text, ',')) == Some(SortList(ns))
  {
    var ns := SortList(NumbersOf(docIds, ids).ns);
    NumbersOfFacts(docIds, ids);
    assert |ns| > 0 by {
      assert |multiset(ns)| == |NumbersOf(docIds, ids).ns|;
    }
    JoinedReadBack(ns, FormatResults(docIds, ids).text);
  }

  /** The decimals of a non-empty list joined with `, ` parse back into it. */
  lemma JoinedReadBack(ns: seq<int>, text: string)
    requires |ns| > 0 && text == JoinWith(Decimals(ns), ", ")
    ensures ParseAll(SplitChar(text, ',')) == Some(ns)
  {
    assert ns == [ns[0]] + ns[1..];
    var parts := Decimals(ns);
    assert forall k :: 0 <= k < |parts| ==> ',' !in parts[k];
    SplitJoined("", parts);
    assert "" + text == text;
    var fields := SplitChar(text, ',');
    assert fields[0] == IntToString(ns[0]);
    assert fields[1..] == Spaced(Decimals(ns[1..]));
    IntToStringRoundTrip(ns[0]);
    ParseAllDecimals(ns[1..], fields[1..]);
    ParseAllCons(fields, ns[0], ns[1..]);
  }
}
