/**
 * The page-selection text of the extract tool (ExtractTool.extract): a
 * comma-separated list of page numbers and `start-end` ranges, 1-based, turned
 * into the 0-based page indices to copy, without duplicates, in the order the
 * pages were first asked for, and limited to the pages the document has.
 */
module PageSelection {
  import opened JsBuiltins

  // ---------------------------------------------------------------- what the tokens ask for

  /** The indices `for (let i = start; i <= end; i++) indices.push(i - 1)` pushes. */
  function PageRange(start: int, end: int): (r: seq<int>)
    ensures |r| == if start <= end then end - start + 1 else 0
    ensures forall k :: 0 <= k < |r| ==> r[k] == start - 1 + k
    decreases end - start
  {
    if start > end then [] else [start - 1] + PageRange(start + 1, end)
  }

  /** What one comma-separated token contributes: a token holding `-` is a
      range, any other token a single page. */
  function TokenIndices(part: string): seq<int>
  {
    if '-' in part then RangeTokenIndices(part) else SingleTokenIndices(part)
  }

  /** A range token is read from its first two dash-separated pieces; when
      `parseInt` reads either as NaN it contributes nothing. */
  function RangeTokenIndices(part: string): seq<int>
    requires '-' in part
  {
    SplitAtSeparator(part, '-');
    var bounds := Split(part, '-');
    var start := ParseInt(Trim(bounds[0]));
    var end := ParseInt(Trim(bounds[1]));
    if start.Some? && end.Some? then PageRange(start.value, end.value) else []
  }

  /** A single page `n` contributes index `n - 1`, a NaN nothing. */
  function SingleTokenIndices(part: string): seq<int>
  {
    match ParseInt(Trim(part))
    case Some(page) => [page - 1]
    case None => []
  }

  /** The indices pushed for a list of tokens, in push order. */
  function PushedIndices(parts: seq<string>): seq<int>
  {
    if |parts| == 0 then [] else PushedIndices(parts[..|parts| - 1]) + TokenIndices(parts[|parts| - 1])
  }

  /** Everything the selection text asks for, duplicates and out-of-range indices included. */
  function RequestedIndices(pagesStr: string): seq<int>
  {
    PushedIndices(Split(pagesStr, ','))
  }

  // ---------------------------------------------------------------- the parsing loop

  /** The `forEach` over the comma-separated tokens, pushing into `indices`. */
  method CollectIndices(pagesStr: string) returns (indices: seq<int>)
    ensures indices == RequestedIndices(pagesStr)
  {
    var parts := Split(pagesStr, ',');
    indices := [];
    var n := 0;
    while n < |parts|
      invariant 0 <= n <= |parts|
      invariant indices == PushedIndices(parts[..n])
    {
      indices := PushToken(indices, parts[n]);
      PushedIndicesStep(parts, n);
      n := n + 1;
    }
    assert parts[..n] == parts;
  }

  /** One more token pushes what that token asks for. */
  lemma PushedIndicesStep(parts: seq<string>, n: nat)
    requires n < |parts|
    ensures PushedIndices(parts[..n + 1]) == PushedIndices(parts[..n]) + TokenIndices(parts[n])
  {
    assert parts[..n + 1][..n] == parts[..n];
  }

  /** The body of the `forEach`: a token holding `-` pushes its range when
      both bounds are numbers; any other token pushes its page's index when it
      is a number. */
  method PushToken(indices: seq<int>, part: string) returns (pushed: seq<int>)
    ensures pushed == indices + TokenIndices(part)
  {
    pushed := indices;
    if '-' in part {
      SplitAtSeparator(part, '-');
      var bounds := Split(part, '-');
      var start := ParseInt(Trim(bounds[0]));
      var end := ParseInt(Trim(bounds[1]));
      if start.Some? && end.Some? {
        pushed := PushRange(indices, start.value, end.value);
      }
    } else {
      var page := ParseInt(Trim(part));
      if page.Some? {
        pushed := indices + [page.value - 1];
      }
    }
  }

  /** The `for` loop of a range token. */
  method PushRange(indices: seq<int>, first: int, last: int) returns (pushed: seq<int>)
    ensures pushed == indices + PageRange(first, last)
  {
    pushed := indices;
    var i := first;
    while i <= last
      invariant first <= i <= (if first <= last then last + 1 else first)
      invariant pushed == indices + PageRange(first, i - 1)
    {
      assert PageRange(first, i) == PageRange(first, i - 1) + [i - 1];
      pushed := pushed + [i - 1];
      i := i + 1;
    }
  }

  // ---------------------------------------------------------------- de-duplication and range filter

  predicate NoDuplicates(s: seq<int>)
  {
    forall i, j :: 0 <= i < j < |s| ==> s[i] != s[j]
  }

  /** `[...new Set(s)]`: each value once, where it first occurs. */
  function Dedupe(s: seq<int>): (r: seq<int>)
    ensures NoDuplicates(r)
    ensures forall x :: x in r <==> x in s
  {
    if |s| == 0 then []
    else
      var d := Dedupe(s[..|s| - 1]);
      var x := s[|s| - 1];
      assert forall y :: y in s <==> y in s[..|s| - 1] || y == x;
      if x in d then d else d + [x]
  }

  /** `.filter(i => i >= 0 && i < totalPages)`. */
  function KeepInRange(s: seq<int>, totalPages: nat): (r: seq<int>)
    ensures forall x :: x in r <==> x in s && 0 <= x < totalPages
    ensures NoDuplicates(s) ==> NoDuplicates(r)
  {
    if |s| == 0 then []
    else
      var k := KeepInRange(s[..|s| - 1], totalPages);
      var x := s[|s| - 1];
      assert forall y :: y in s <==> y in s[..|s| - 1] || y == x;
      if 0 <= x < totalPages then
        assert NoDuplicates(s) ==> x !in s[..|s| - 1];
        k + [x]
      else k
  }

  /** The indices extraction copies: `validIndices`. */
  function SelectedPages(pagesStr: string, totalPages: nat): seq<int>
  {
    KeepInRange(Dedupe(RequestedIndices(pagesStr)), totalPages)
  }

  // ---------------------------------------------------------------- first-occurrence order

  /** Where `x` first occurs in `s`. */
  function FirstIndex(s: seq<int>, x: int): (k: nat)
    requires x in s
    ensures k < |s| && s[k] == x && x !in s[..k]
  {
    if s[0] == x then 0
    else
      var k := FirstIndex(s[1..], x);
      assert s[..k + 1] == [s[0]] + s[1..][..k];
      1 + k
  }

  /** The values of `r` come in the order of their first occurrence in `s`. */
  ghost predicate InFirstOccurrenceOrder(r: seq<int>, s: seq<int>)
  {
    forall i, j :: 0 <= i < j < |r| && r[i] in s && r[j] in s ==> FirstIndex(s, r[i]) < FirstIndex(s, r[j])
  }

  /** Appending a value leaves the first occurrences of earlier values where they were. */
  lemma FirstIndexSnoc(s: seq<int>, y: int, x: int)
    requires x in s
    ensures FirstIndex(s + [y], x) == FirstIndex(s, x)
  {
    var k := FirstIndex(s, x);
    FirstIndexUnique(s + [y], x, k);
  }

  /** A position holding `x` with no `x` before it is the first occurrence. */
  lemma FirstIndexUnique(s: seq<int>, x: int, k: nat)
    requires k < |s| && s[k] == x && x !in s[..k]
    ensures FirstIndex(s, x) == k
  {
    var k' := FirstIndex(s, x);
    assert s[k'] == x && s[k] == x;
  }

  lemma {:induction false} DedupeOrder(s: seq<int>)
    ensures InFirstOccurrenceOrder(Dedupe(s), s)
  {
    if |s| > 0 {
      var p, x := s[..|s| - 1], s[|s| - 1];
      assert s == p + [x];
      var d := Dedupe(p);
      DedupeOrder(p);
      forall y | y in p ensures FirstIndex(s, y) == FirstIndex(p, y) {
        FirstIndexSnoc(p, x, y);
      }
      if x !in d {
        assert FirstIndex(s, x) == |p| by {
          assert x !in s[..|p|];
        }
      }
    }
  }

  lemma {:induction false} KeepInRangeOrder(r: seq<int>, s: seq<int>, totalPages: nat)
    requires InFirstOccurrenceOrder(r, s)
    ensures InFirstOccurrenceOrder(KeepInRange(r, totalPages), s)
  {
    if |r| > 0 {
      var p, x := r[..|r| - 1], r[|r| - 1];
      assert InFirstOccurrenceOrder(p, s);
      KeepInRangeOrder(p, s, totalPages);
      var k := KeepInRange(p, totalPages);
      if 0 <= x < totalPages && x in s {
        forall i | 0 <= i < |k| && k[i] in s ensures FirstIndex(s, k[i]) < FirstIndex(s, x) {
          assert k[i] in k;
          assert k[i] in p;
          var m :| 0 <= m < |p| && p[m] == k[i];
          assert r[m] == k[i];
        }
      }
    }
  }

  /** The selected indices are in range, distinct, exactly the requested
      in-range indices, and in the order the pages were first asked for. */
  lemma SelectedPagesSpec(pagesStr: string, totalPages: nat)
    ensures var r := SelectedPages(pagesStr, totalPages);
      && (forall i :: 0 <= i < |r| ==> 0 <= r[i] < totalPages)
      && NoDuplicates(r)
      && (forall x :: x in r <==> x in RequestedIndices(pagesStr) && 0 <= x < totalPages)
      && InFirstOccurrenceOrder(r, RequestedIndices(pagesStr))
  {
    var s := RequestedIndices(pagesStr);
    var r := SelectedPages(pagesStr, totalPages);
    forall i | 0 <= i < |r| ensures 0 <= r[i] < totalPages {
      assert r[i] in r;
    }
    DedupeOrder(s);
    KeepInRangeOrder(Dedupe(s), s, totalPages);
  }

  // ---------------------------------------------------------------- the extract action

  /** The source document as pdf-lib sees it: its name and, when it loads, its page count. */
  datatype SourcePdf = SourcePdf(name: string, pageCount: Option<nat>)

  /** The one notification an extract action ends with. */
  datatype ExtractOutcome =
    | MissingData                                   // "Faltan datos"
    | CheckPageNumbers                              // "Error: Revisa los números de página"
    | Extracted(fileName: string, pages: seq<int>)  // the pages copied, in order, into "extraido_<name>"

  /** ExtractTool.extract: refuse without a file or a selection, load the
      document, parse the selection, and abort when no valid page remains. */
  method Extract(file: Option<SourcePdf>, pagesStr: string) returns (outcome: ExtractOutcome)
    ensures outcome.MissingData? <==> file.None? || pagesStr == ""
    ensures outcome.Extracted? <==>
      file.Some? && pagesStr != "" && file.value.pageCount.Some?
      && SelectedPages(pagesStr, file.value.pageCount.value) != []
    ensures outcome.Extracted? ==>
      outcome.fileName == "extraido_" + file.value.name
      && outcome.pages == SelectedPages(pagesStr, file.value.pageCount.value)
  {
    if file.None? || pagesStr == "" {
      return MissingData;
    }
    var src := file.value;
    if src.pageCount.None? {
      return CheckPageNumbers;
    }
    var totalPages := src.pageCount.value;
    var indices := CollectIndices(pagesStr);
    var validIndices := KeepInRange(Dedupe(indices), totalPages);
    if validIndices == [] {
      return CheckPageNumbers;
    }
    outcome := Extracted("extraido_" + src.name, validIndices);
  }

  // ---------------------------------------------------------------- tokens

  /** A single page number `n`, after any whitespace, asks for index `n - 1`. */
  lemma SinglePageToken(ws: string, n: nat)
    requires forall i :: 0 <= i < |ws| ==> IsJsSpace(ws[i])
    ensures TokenIndices(ws + DecimalText(n)) == [n - 1]
  {
    NumeralReads(ws, n);
  }

  /** A range `a-b`, after any whitespace, asks for `a-1, a, ..., b-1` in
      ascending order, and for nothing when `a > b`. */
  lemma RangeToken(ws: string, a: nat, b: nat)
    requires forall i :: 0 <= i < |ws| ==> IsJsSpace(ws[i])
    ensures var r := TokenIndices(ws + DecimalText(a) + "-" + DecimalText(b));
      && |r| == (if a <= b then b - a + 1 else 0)
      && forall k :: 0 <= k < |r| ==> r[k] == a - 1 + k
  {
    var da, db := DecimalText(a), DecimalText(b);
    NumeralReads(ws, a);
    NumeralReads("", b);
    assert "" + db == db;
    NumeralsSplitAtDash(ws + da, db);
    RangeFromBounds(ws + da + "-" + db, ws + da, db, a, b);
  }

  /** A range token whose first two pieces read as `a` and `b` asks for `PageRange(a, b)`. */
  lemma RangeFromBounds(part: string, p0: string, p1: string, a: int, b: int)
    requires '-' in part && Split(part, '-') == [p0, p1]
    requires ParseInt(Trim(p0)) == Some(a) && ParseInt(Trim(p1)) == Some(b)
    ensures TokenIndices(part) == PageRange(a, b)
  {
  }

  /** A numeral after whitespace holds no dash, and trimmed and read by `parseInt` it is `n`. */
  lemma NumeralReads(ws: string, n: nat)
    requires forall i :: 0 <= i < |ws| ==> IsJsSpace(ws[i])
    ensures '-' !in ws + DecimalText(n)
    ensures ParseInt(Trim(ws + DecimalText(n))) == Some(n)
  {
    var d := DecimalText(n);
    TrimNumeral(ws, d);
    assert "" + d + "" == d;
    ParseIntDecimal("", n, "");
    assert ParseInt(d) == Some(n);
  }

  /** A dash-free piece and a numeral joined by a dash split back into the two. */
  lemma NumeralsSplitAtDash(p: string, db: string)
    requires '-' !in p
    requires forall i :: 0 <= i < |db| ==> '0' <= db[i] <= '9'
    ensures '-' in p + "-" + db
    ensures Split(p + "-" + db, '-') == [p, db]
  {
    var part := p + "-" + db;
    assert part[|p|] == '-';
    assert '-' !in db;
    SplitPrefixed(p, db, '-');
    SplitPieceAlone(db, '-');
    assert p + ['-'] + db == part;
  }

  /** A range with nothing before its dash (`-5`) asks for nothing. */
  lemma MissingRangeStart(rest: string)
    ensures TokenIndices("-" + rest) == []
  {
    var part := "-" + rest;
    assert part[0] == '-' && part[1..] == rest;
    assert Split(part, '-')[0] == "";
  }

  /** A range with nothing after its dash (`3-`) asks for nothing. */
  lemma MissingRangeEnd(first: string)
    requires '-' !in first
    ensures TokenIndices(first + "-") == []
  {
    var part := first + "-";
    assert part[|first|] == '-';
    SplitPrefixed(first, "", '-');
    assert first + ['-'] + "" == part;
  }

  /** Trimming whitespace followed by a numeral leaves the numeral. */
  lemma TrimNumeral(ws: string, d: string)
    requires forall i :: 0 <= i < |ws| ==> IsJsSpace(ws[i])
    requires |d| >= 1 && forall i :: 0 <= i < |d| ==> '0' <= d[i] <= '9'
    ensures Trim(ws + d) == d
    ensures '-' !in ws + d
  {
    TrimStartSkips(ws, d);
    TrimEndKeeps(d);
    NoDash(ws, d);
  }

  lemma TrimEndKeeps(d: string)
    requires |d| >= 1 && '0' <= d[|d| - 1] <= '9'
    ensures TrimEnd(d) == d
  {
  }

  lemma NoDash(ws: string, d: string)
    requires forall i :: 0 <= i < |ws| ==> IsJsSpace(ws[i])
    requires forall i :: 0 <= i < |d| ==> '0' <= d[i] <= '9'
    ensures '-' !in ws + d
  {
    forall i | 0 <= i < |ws + d| ensures (ws + d)[i] != '-' {
      if i < |ws| {
        assert IsJsSpace(ws[i]);
      } else {
        assert (ws + d)[i] == d[i - |ws|];
      }
    }
  }
}
