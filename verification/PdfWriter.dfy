/** The minimal PDF writer: numbered objects, a cross-reference table and a trailer.
    Bytes are characters with a code below 256. */
module PdfWriter {
  import opened Wrappers
  import opened Decimal

  const HEAD: string := "%PDF-1.4\n%\U{ff}\U{ff}\U{ff}\U{ff}\n"
  const FREE_ENTRY: string := "0000000000 65535 f\r\n"
  const IN_USE: string := " 00000 n\r\n"
  const END_MARK: string := "\n%%EOF\n"
  const START_MARK: string := "startxref\n"

  function ObjectText(k: nat, value: string): string {
    Numeral(k) + " 0 obj\n" + value + "\nendobj\n"
  }

  // The first `n` objects, numbered from 1.
  function Bodies(objects: seq<string>, n: nat): string
    requires n <= |objects|
  {
    if n == 0 then "" else Bodies(objects, n - 1) + ObjectText(n, objects[n - 1])
  }

  // Where object `k` starts.
  function Offset(objects: seq<string>, k: nat): nat
    requires 1 <= k <= |objects|
  {
    |HEAD| + |Bodies(objects, k - 1)|
  }

  function XrefOffset(objects: seq<string>): nat {
    |HEAD| + |Bodies(objects, |objects|)|
  }

  function EntryText(offset: nat): string {
    Padded(offset, 10) + IN_USE
  }

  function Entries(objects: seq<string>, n: nat): string
    requires n <= |objects|
  {
    if n == 0 then "" else Entries(objects, n - 1) + EntryText(Offset(objects, n))
  }

  function TableHead(size: nat): string {
    "xref\n0 " + Numeral(size) + "\n"
  }

  function Front(objects: seq<string>): string {
    HEAD + Bodies(objects, |objects|)
  }

  function Table(objects: seq<string>): string {
    TableHead(|objects| + 1) + FREE_ENTRY + Entries(objects, |objects|)
  }

  function Trailer(objects: seq<string>): string {
    "trailer\n<< /Size " + Numeral(|objects| + 1) + " /Root 1 0 R >>\n"
  }

  function Tail(objects: seq<string>): string {
    Trailer(objects) + START_MARK + Numeral(XrefOffset(objects)) + END_MARK
  }

  function Pdf(objects: seq<string>): string {
    Front(objects) + Table(objects) + Tail(objects)
  }

  method WriteObjects(objects: seq<string>) returns (output: string, offsets: seq<nat>)
    ensures output == Front(objects)
    ensures |offsets| == |objects| && forall k :: 0 <= k < |offsets| ==> offsets[k] == Offset(objects, k + 1)
  {
    output := HEAD;
    offsets := [];
    for i := 0 to |objects|
      invariant output == HEAD + Bodies(objects, i)
      invariant |offsets| == i && forall k :: 0 <= k < i ==> offsets[k] == Offset(objects, k + 1)
    {
      offsets := offsets + [|output|];
      output := output + (Numeral(i + 1) + " 0 obj\n");
      output := output + objects[i];
      output := output + "\nendobj\n";
      assert output == HEAD + (Bodies(objects, i) + ObjectText(i + 1, objects[i]));
    }
  }

  method WriteTable(objects: seq<string>, offsets: seq<nat>) returns (table: string)
    requires |offsets| == |objects| && forall k :: 0 <= k < |offsets| ==> offsets[k] == Offset(objects, k + 1)
    ensures table == Table(objects)
  {
    var head := TableHead(|objects| + 1) + FREE_ENTRY;
    table := head;
    for i := 0 to |offsets|
      invariant table == head + Entries(objects, i)
    {
      table := table + EntryText(offsets[i]);
      assert table == head + (Entries(objects, i) + EntryText(Offset(objects, i + 1)));
    }
  }

  method BuildPdf(objects: seq<string>) returns (output: string)
    ensures output == Pdf(objects)
  {
    var offsets;
    output, offsets := WriteObjects(objects);
    var xref := |output|;
    var table := WriteTable(objects, offsets);
    output := output + table;
    output := output + (Trailer(objects) + START_MARK + Numeral(xref) + END_MARK);
  }

  // ---------- a reader ----------

  predicate StartsWith(s: string, at: nat, piece: string) {
    at + |piece| <= |s| && s[at..at + |piece|] == piece
  }

  // The number between a start mark and the final end mark.
  function FindNumber(s: string, startMark: string, endMark: string): Option<nat> {
    if |s| < |endMark| || !StartsWith(s, |s| - |endMark|, endMark) then None
    else
      var e := |s| - |endMark|;
      var a := e - DigitRun(s, e);
      if a == e || a < |startMark| || !StartsWith(s, a - |startMark|, startMark) then None
      else Some(Parse(s[a..e]))
  }

  // What `startxref` points to.
  function FindTable(s: string): Option<nat> {
    FindNumber(s, "startxref\n", "\n%%EOF\n")
  }

  // A ten-digit number followed by the mark of an entry.
  function DecodeEntry(s: string, at: nat, mark: string): Option<nat> {
    if at + 10 <= |s| && AllDigits(s[at..at + 10]) && StartsWith(s, at + 10, mark)
    then Some(Parse(s[at..at + 10]))
    else None
  }

  // Entry k of a table that begins with `head`.
  function Follow(s: string, table: Option<nat>, head: string, k: nat, mark: string): Option<nat> {
    if table.None? || !StartsWith(s, table.value, head) then None
    else DecodeEntry(s, table.value + |head| + 20 * k, mark)
  }

  // Follows `startxref` to the table of a file with `size - 1` objects, then entry k.
  function Resolve(s: string, size: nat, k: nat): Option<nat> {
    Follow(s, FindTable(s), "xref\n0 " + Numeral(size) + "\n", k, " 00000 n\r\n")
  }

  // ---------- pieces of concatenations ----------

  lemma Prepend(a: string, s: string, at: nat, piece: string)
    requires StartsWith(s, at, piece)
    ensures StartsWith(a + s, |a| + at, piece)
  {
    assert (a + s)[|a| + at..|a| + at + |piece|] == s[at..at + |piece|];
  }

  lemma Append(s: string, b: string, at: nat, piece: string)
    requires StartsWith(s, at, piece)
    ensures StartsWith(s + b, at, piece)
  {
    assert (s + b)[at..at + |piece|] == s[at..at + |piece|];
  }

  lemma Whole(s: string)
    ensures StartsWith(s, 0, s)
  {}

  lemma Split(s: string, at: nat, p: string, q: string)
    requires StartsWith(s, at, p + q)
    ensures StartsWith(s, at, p) && StartsWith(s, at + |p|, q)
  {
    assert s[at..at + |p|] == (p + q)[..|p|] == p;
    assert s[at + |p|..at + |p| + |q|] == (p + q)[|p|..] == q;
  }

  lemma NumberIsFound(s: string, startMark: string, endMark: string, a: nat, e: nat)
    requires startMark != [] && !IsDigit(startMark[|startMark| - 1])
    requires |startMark| <= a < e && e + |endMark| == |s|
    requires StartsWith(s, a - |startMark|, startMark) && StartsWith(s, e, endMark) && AllDigits(s[a..e])
    ensures FindNumber(s, startMark, endMark) == Some(Parse(s[a..e]))
  {
    assert s[a - 1] == s[a - |startMark|..a][|startMark| - 1];
    forall i | a <= i < e
      ensures IsDigit(s[i])
    {
      assert s[i] == s[a..e][i - a];
    }
    DigitRunFound(s, a, e);
  }

  // A piece of the part `b` between a front `a` with a head `h`, and an end `c`.
  lemma Place(a: string, h: string, b: string, c: string, at: nat, within: nat, piece: string)
    requires StartsWith(b, within, piece) && at == |a| + |h| + within
    ensures StartsWith(a + (h + b) + c, at, piece)
  {
    Prepend(h, b, within, piece);
    Prepend(a, h + b, |h| + within, piece);
    Append(a + (h + b), c, at, piece);
  }

  // ---------- correctness ----------

  /** `startxref` gives the position of the table. */
  lemma TableIsFound(objects: seq<string>)
    ensures FindTable(Pdf(objects)) == Some(XrefOffset(objects))
  {
    var front := Front(objects) + Table(objects);
    var digits := Numeral(XrefOffset(objects));
    NumberAfter(front + Trailer(objects), START_MARK, digits, END_MARK);
    TailSplits(front, Trailer(objects), START_MARK, digits, END_MARK);
    ParseNumeral(XrefOffset(objects));
  }

  lemma NumberAfter(front: string, startMark: string, digits: string, endMark: string)
    requires startMark != [] && !IsDigit(startMark[|startMark| - 1]) && AllDigits(digits) && digits != []
    ensures FindNumber(front + startMark + digits + endMark, startMark, endMark) == Some(Parse(digits))
  {
    var s := front + startMark + digits + endMark;
    var a := |front| + |startMark|;
    assert s[|front|..a] == startMark;
    assert s[a..a + |digits|] == digits;
    assert s[a + |digits|..] == endMark;
    NumberIsFound(s, startMark, endMark, a, a + |digits|);
  }

  lemma TailSplits(a: string, b: string, c: string, d: string, e: string)
    ensures a + (b + c + d + e) == a + b + c + d + e
  {}

  lemma {:induction false} BodiesHold(objects: seq<string>, k: nat, n: nat)
    requires 1 <= k <= n <= |objects|
    ensures StartsWith(Bodies(objects, n), |Bodies(objects, k - 1)|, ObjectText(k, objects[k - 1]))
  {
    var piece := ObjectText(k, objects[k - 1]);
    if k < n {
      BodiesHold(objects, k, n - 1);
      Append(Bodies(objects, n - 1), ObjectText(n, objects[n - 1]), |Bodies(objects, k - 1)|, piece);
    } else {
      Whole(piece);
      Prepend(Bodies(objects, k - 1), piece, 0, piece);
    }
  }

  /** Object k stands, whole, at the offset recorded for it. */
  lemma ObjectAtOffset(objects: seq<string>, k: nat)
    requires 1 <= k <= |objects|
    ensures StartsWith(Pdf(objects), Offset(objects, k), Numeral(k) + " 0 obj\n" + objects[k - 1] + "\nendobj\n")
  {
    var piece := ObjectText(k, objects[k - 1]);
    BodiesHold(objects, k, |objects|);
    Prepend(HEAD, Bodies(objects, |objects|), |Bodies(objects, k - 1)|, piece);
    Append(Front(objects), Table(objects), Offset(objects, k), piece);
    Append(Front(objects) + Table(objects), Tail(objects), Offset(objects, k), piece);
  }

  lemma {:induction false} BodiesGrow(objects: seq<string>, k: nat, n: nat)
    requires k <= n <= |objects|
    ensures |Bodies(objects, k)| <= |Bodies(objects, n)|
  {
    if k < n { BodiesGrow(objects, k, n - 1); }
  }

  // The first n offsets have at most ten digits.
  predicate Fits(objects: seq<string>, n: nat)
    requires n <= |objects|
  {
    n == 0 || Offset(objects, n) < Pow10(10)
  }

  lemma FitsBefore(objects: seq<string>, m: nat, n: nat)
    requires m <= n <= |objects| && Fits(objects, n)
    ensures Fits(objects, m)
  {
    if 0 < m { BodiesGrow(objects, m - 1, n - 1); }
  }

  lemma {:induction false} EntriesLength(objects: seq<string>, n: nat)
    requires n <= |objects| && Fits(objects, n)
    ensures |Entries(objects, n)| == 20 * n
  {
    if n > 0 {
      FitsBefore(objects, n - 1, n);
      EntriesLength(objects, n - 1);
      EntryWidth(Offset(objects, n));
    }
  }

  // Entry k stands at its place if all before it have their width.
  lemma {:induction false} EntriesHold(objects: seq<string>, k: nat, n: nat, at: nat, piece: string)
    requires 1 <= k <= n <= |objects| && Fits(objects, k - 1)
    requires at == 20 * (k - 1) && piece == EntryText(Offset(objects, k))
    ensures StartsWith(Entries(objects, n), at, piece)
  {
    if k < n {
      EntriesHold(objects, k, n - 1, at, piece);
      Append(Entries(objects, n - 1), EntryText(Offset(objects, n)), at, piece);
    } else {
      LastEntryHolds(objects, k, at, piece);
    }
  }

  lemma LastEntryHolds(objects: seq<string>, k: nat, at: nat, piece: string)
    requires 1 <= k <= |objects| && Fits(objects, k - 1)
    requires at == 20 * (k - 1) && piece == EntryText(Offset(objects, k))
    ensures StartsWith(Entries(objects, k), at, piece)
  {
    EntriesLength(objects, k - 1);
    Whole(piece);
    Prepend(Entries(objects, k - 1), piece, 0, piece);
  }

  lemma EntryInPdf(objects: seq<string>, k: nat, at: nat, piece: string)
    requires 1 <= k <= |objects| && Fits(objects, k - 1) && piece == EntryText(Offset(objects, k))
    requires at == XrefOffset(objects) + |TableHead(|objects| + 1)| + 20 * k
    ensures StartsWith(Pdf(objects), at, piece)
  {
    EntriesHold(objects, k, |objects|, 20 * (k - 1), piece);
    var head := TableHead(|objects| + 1) + FREE_ENTRY;
    assert |FREE_ENTRY| == 20;
    assert at == |Front(objects)| + |head| + 20 * (k - 1);
    Place(Front(objects), head, Entries(objects, |objects|), Tail(objects), at, 20 * (k - 1), piece);
  }

  lemma TableHeadInPdf(objects: seq<string>)
    ensures StartsWith(Pdf(objects), XrefOffset(objects), TableHead(|objects| + 1))
  {
    var piece := TableHead(|objects| + 1);
    Whole(piece);
    Append(piece, FREE_ENTRY, 0, piece);
    Append(piece + FREE_ENTRY, Entries(objects, |objects|), 0, piece);
    Prepend(Front(objects), Table(objects), 0, piece);
    Append(Front(objects) + Table(objects), Tail(objects), XrefOffset(objects), piece);
  }

  // A written entry decodes to its offset exactly if the offset has at most ten digits.
  lemma DecodeOwnEntry(s: string, at: nat, offset: nat, mark: string)
    requires StartsWith(s, at, Padded(offset, 10) + mark) && mark != [] && !IsDigit(mark[0])
    ensures DecodeEntry(s, at, mark) == if offset < Pow10(10) then Some(offset) else None
  {
    var digits := Padded(offset, 10);
    PaddedLength(offset, 10);
    Split(s, at, digits, mark);
    if offset < Pow10(10) {
      ParsePadded(offset, 10);
    } else {
      assert s[at + 10] == s[at..at + |digits|][10] == digits[10];
      FirstOf(s, at + 10, mark);
    }
  }

  lemma FirstOf(s: string, at: nat, piece: string)
    requires piece != [] && at < |s|
    ensures StartsWith(s, at, piece) ==> s[at] == piece[0]
  {
    if StartsWith(s, at, piece) { assert s[at] == s[at..at + |piece|][0]; }
  }

  // If all offsets before it fit, entry k resolves exactly if its own does.
  lemma EntryResolves(objects: seq<string>, k: nat)
    requires 1 <= k <= |objects| && Fits(objects, k - 1)
    ensures Resolve(Pdf(objects), |objects| + 1, k) == if Fits(objects, k) then Some(Offset(objects, k)) else None
  {
    TableIsFound(objects);
    TableHeadInPdf(objects);
    var at := XrefOffset(objects) + |TableHead(|objects| + 1)| + 20 * k;
    EntryInPdf(objects, k, at, EntryText(Offset(objects, k)));
    ResolvesIn(Pdf(objects), |objects| + 1, k, XrefOffset(objects), at, Offset(objects, k));
  }

  lemma ResolvesIn(s: string, size: nat, k: nat, table: nat, at: nat, offset: nat)
    requires FindTable(s) == Some(table) && StartsWith(s, table, TableHead(size))
    requires at == table + |TableHead(size)| + 20 * k && StartsWith(s, at, EntryText(offset))
    ensures Resolve(s, size, k) == if offset < Pow10(10) then Some(offset) else None
  {
    assert !IsDigit(IN_USE[0]);
    DecodeOwnEntry(s, at, offset, IN_USE);
    FollowFinds(s, table, TableHead(size), k, IN_USE, at);
  }

  lemma FollowFinds(s: string, table: nat, head: string, k: nat, mark: string, at: nat)
    requires StartsWith(s, table, head) && at == table + |head| + 20 * k
    ensures Follow(s, Some(table), head, k, mark) == DecodeEntry(s, at, mark)
  {}

  // Following `startxref` and entry k leads to the whole of object k.
  predicate Leads(objects: seq<string>, k: nat)
    requires 1 <= k <= |objects|
  {
    var found := Resolve(Pdf(objects), |objects| + 1, k);
    && found.Some?
    && StartsWith(Pdf(objects), found.value, Numeral(k) + " 0 obj\n" + objects[k - 1] + "\nendobj\n")
  }

  lemma EntryLeads(objects: seq<string>, k: nat)
    requires 1 <= k <= |objects| && Fits(objects, k)
    ensures Leads(objects, k)
  {
    FitsBefore(objects, k - 1, k);
    EntryResolves(objects, k);
    ObjectAtOffset(objects, k);
  }

  lemma {:induction false} FirstWide(objects: seq<string>, n: nat) returns (k: nat)
    requires n <= |objects| && !Fits(objects, n)
    ensures 1 <= k <= n && Fits(objects, k - 1) && !Fits(objects, k)
  {
    k := n;
    if !Fits(objects, n - 1) { k := FirstWide(objects, n - 1); }
  }

  /** For every object list: all entries of the table lead to their whole objects exactly
      if the last object starts below 10^10. */
  lemma EveryEntryLeadsIff(objects: seq<string>)
    ensures (forall k :: 1 <= k <= |objects| ==> Leads(objects, k)) <==> Fits(objects, |objects|)
  {
    if Fits(objects, |objects|) {
      forall k | 1 <= k <= |objects|
        ensures Leads(objects, k)
      {
        FitsBefore(objects, k, |objects|);
        EntryLeads(objects, k);
      }
    } else {
      var k := FirstWide(objects, |objects|);
      EntryResolves(objects, k);
      assert !Leads(objects, k);
    }
  }

  /** `startxref` leads to the table, which begins with its size and the free entry. */
  lemma TableStands(objects: seq<string>)
    ensures var found := FindTable(Pdf(objects));
            && found.Some?
            && StartsWith(Pdf(objects), found.value,
                          "xref\n0 " + Numeral(|objects| + 1) + "\n" + "0000000000 65535 f\r\n")
  {
    TableIsFound(objects);
    var head := TableHead(|objects| + 1) + FREE_ENTRY;
    Whole(head);
    Place(Front(objects), "", head, Entries(objects, |objects|) + Tail(objects), XrefOffset(objects), 0, head);
    Regroup(Front(objects), head, Entries(objects, |objects|), Tail(objects));
  }

  lemma Regroup(a: string, h: string, b: string, c: string)
    ensures a + ("" + h) + (b + c) == a + (h + b) + c
  {}

  predicate EndsWith(s: string, piece: string) {
    |piece| <= |s| && s[|s| - |piece|..] == piece
  }

  /** The file begins with the version line and a line of four bytes above 127. */
  lemma HeadStands(objects: seq<string>)
    ensures StartsWith(Pdf(objects), 0, "%PDF-1.4\n%\U{ff}\U{ff}\U{ff}\U{ff}\n")
  {
    Whole(HEAD);
    Append(HEAD, Bodies(objects, |objects|), 0, HEAD);
    Append(Front(objects), Table(objects), 0, HEAD);
    Append(Front(objects) + Table(objects), Tail(objects), 0, HEAD);
  }

  /** The file ends with a trailer that gives the size and the first object as root, and
      with the position of the table. */
  lemma TrailerStands(objects: seq<string>)
    ensures var found := FindTable(Pdf(objects));
            && found.Some?
            && EndsWith(Pdf(objects), "trailer\n<< /Size " + Numeral(|objects| + 1) + " /Root 1 0 R >>\n"
                                      + "startxref\n" + Numeral(found.value) + "\n%%EOF\n")
  {
    TableIsFound(objects);
    TailEnds(Front(objects) + Table(objects), Tail(objects));
  }

  lemma TailEnds(a: string, b: string)
    ensures EndsWith(a + b, b)
  {}

  function ObjectLength(objects: seq<string>, k: nat): nat
    requires 1 <= k <= |objects|
  {
    |Numeral(k)| + |" 0 obj\n"| + |objects[k - 1]| + |"\nendobj\n"|
  }

  lemma ResolvedIs(objects: seq<string>, k: nat)
    requires 1 <= k <= |objects| && Fits(objects, |objects|)
    ensures Resolve(Pdf(objects), |objects| + 1, k) == Some(Offset(objects, k))
  {
    FitsBefore(objects, k, |objects|);
    FitsBefore(objects, k - 1, k);
    EntryResolves(objects, k);
  }

  // Where the reader ends up for entry k, and for the table behind the last object.
  function Found(objects: seq<string>, k: nat): Option<nat> {
    if k <= |objects| then Resolve(Pdf(objects), |objects| + 1, k) else FindTable(Pdf(objects))
  }

  lemma FoundIs(objects: seq<string>, k: nat)
    requires 1 <= k <= |objects| + 1 && Fits(objects, |objects|)
    ensures Found(objects, k) == Some(|HEAD| + |Bodies(objects, k - 1)|)
  {
    if k <= |objects| { ResolvedIs(objects, k); } else { TableIsFound(objects); }
  }

  // The reader ends up at a position for entry k.
  predicate FoundAt(objects: seq<string>, k: nat, at: int) {
    Found(objects, k) == Some(at)
  }

  lemma FoundAtBodies(objects: seq<string>, k: nat, at: int)
    requires 1 <= k <= |objects| + 1 && Fits(objects, |objects|) && at == |HEAD| + |Bodies(objects, k - 1)|
    ensures FoundAt(objects, k, at)
  {
    FoundIs(objects, k);
  }

  /** Nothing stands between the objects: each follows the one before it, and the table the
      last. */
  lemma ObjectsAdjoin(objects: seq<string>, k: nat) returns (at: nat, next: nat)
    requires 1 <= k <= |objects| && Fits(objects, |objects|)
    ensures FoundAt(objects, k, at) && FoundAt(objects, k + 1, next) && next == at + ObjectLength(objects, k)
  {
    at, next := |HEAD| + |Bodies(objects, k - 1)|, |HEAD| + |Bodies(objects, k)|;
    FoundAtBodies(objects, k, at);
    FoundAtBodies(objects, k + 1, next);
    OffsetStep(objects, k);
  }

  /** And the first follows the head. */
  lemma FirstFollowsHead(objects: seq<string>)
    requires Fits(objects, |objects|)
    ensures FoundAt(objects, 1, |"%PDF-1.4\n%\U{ff}\U{ff}\U{ff}\U{ff}\n"|)
  {
    FoundAtBodies(objects, 1, |HEAD|);
  }

  lemma OffsetStep(objects: seq<string>, k: nat)
    requires 1 <= k <= |objects|
    ensures k == 1 ==> Offset(objects, k) == |HEAD|
    ensures |HEAD| + |Bodies(objects, k)| == Offset(objects, k) + ObjectLength(objects, k)
  {}

  /** Nor between the table and the trailer: the file is as long as its parts. */
  lemma PartsFillTheFile(objects: seq<string>)
    requires Fits(objects, |objects|)
    ensures FindTable(Pdf(objects)).Some?
    ensures |Pdf(objects)| == FindTable(Pdf(objects)).value + |"xref\n0 "| + |Numeral(|objects| + 1)| + |"\n"|
                              + 20 * (|objects| + 1)
                              + |"trailer\n<< /Size "| + |Numeral(|objects| + 1)| + |" /Root 1 0 R >>\n"|
                              + |"startxref\n"| + |Numeral(FindTable(Pdf(objects)).value)| + |"\n%%EOF\n"|
  {
    TableIsFound(objects);
    EntriesLength(objects, |objects|);
    assert |FREE_ENTRY| == 20;
  }

  /** An entry keeps its 20 bytes exactly while the offset has at most ten digits. */
  lemma EntryWidth(offset: nat)
    ensures |EntryText(offset)| == 20 <==> offset < Pow10(10)
  {
    PaddedLength(offset, 10);
  }

  /** All entries keep their 20 bytes exactly if the last object starts below 10^10. */
  lemma EntriesAreNarrowIff(objects: seq<string>)
    ensures (forall k :: 1 <= k <= |objects| ==> |EntryText(Offset(objects, k))| == 20) <==> Fits(objects, |objects|)
  {
    if objects != [] { EntryWidth(Offset(objects, |objects|)); }
    if Fits(objects, |objects|) {
      forall k | 1 <= k <= |objects|
        ensures |EntryText(Offset(objects, k))| == 20
      {
        FitsBefore(objects, k, |objects|);
        EntryWidth(Offset(objects, k));
      }
    }
  }
}
