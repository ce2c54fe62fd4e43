/** Bytes as pairs of hexadecimal digits. */
module HexText {
  import opened Basics
  import opened Bytes

  const DIGITS := "0123456789ABCDEF"

  function Digit(v: nat): char
    requires v < 16
  {
    DIGITS[v]
  }

  /** The value of a digit of either case; None for any other character. */
  function Value(c: char): (r: Option<nat>)
    ensures r.Some? ==> r.value < 16
  {
    if '0' <= c <= '9' then Some((c - '0') as nat)
    else if 'A' <= c <= 'F' then Some((c - 'A') as nat + 10)
    else if 'a' <= c <= 'f' then Some((c - 'a') as nat + 10)
    else None
  }

  predicate IsSpace(c: char) {
    c == ' ' || c == '\t' || c == '\n' || c == '\r' || c == '\U{0B}' || c == '\U{0C}'
  }

  /** strtol in base 16 on the two characters, cut to a byte. */
  function PairValue(a: char, b: char): byte {
    var v, w := Value(a), Value(b);
    if v.Some? then (if w.Some? then v.value * 16 + w.value else v.value)
    else if w.None? then 0
    else if IsSpace(a) || a == '+' then w.value
    else if a == '-' then (256 - w.value) % 256
    else 0
  }

  function High(b: byte): char { Digit(b / 16) }

  function Low(b: byte): char { Digit(b % 16) }

  lemma PairInverts(b: byte)
    ensures PairValue(High(b), Low(b)) == b
    ensures !IsSpace(High(b)) && !IsSpace(Low(b))
  {
    DigitValue(b / 16);
    DigitValue(b % 16);
  }

  lemma DigitValue(v: nat)
    requires v < 16
    ensures Value(Digit(v)) == Some(v) && !IsSpace(Digit(v)) && Digit(v) != ':' && Digit(v) != 'X' && Digit(v) != '\n'
  {
  }

  /** "%02X" of each byte. */
  function Hex(bs: seq<byte>): (s: string)
    ensures |s| == 2 * |bs|
  {
    if bs == [] then "" else Hex(bs[..|bs| - 1]) + [High(bs[|bs| - 1]), Low(bs[|bs| - 1])]
  }

  /** The first `n` pairs. */
  function Unhex(s: string, n: nat): (bs: seq<byte>)
    requires 2 * n <= |s|
    ensures |bs| == n
  {
    seq<byte>(n, i requires 0 <= i < n => PairValue(s[2 * i], s[2 * i + 1]))
  }

  lemma {:induction false} HexAt(bs: seq<byte>, i: nat)
    requires i < |bs|
    ensures Hex(bs)[2 * i] == High(bs[i]) && Hex(bs)[2 * i + 1] == Low(bs[i])
  {
    hide High, Low;
    if i < |bs| - 1 { HexAt(bs[..|bs| - 1], i); }
  }

  /** Reading back what was written gives the bytes. */
  lemma UnhexInvertsHex(bs: seq<byte>)
    ensures Unhex(Hex(bs), |bs|) == bs
  {
    hide Hex, PairValue, High, Low;
    forall i | 0 <= i < |bs| ensures Unhex(Hex(bs), |bs|)[i] == bs[i] {
      HexAt(bs, i);
      PairInverts(bs[i]);
    }
  }

  predicate NoSpace(s: string) { forall i :: 0 <= i < |s| ==> !IsSpace(s[i]) }

  lemma {:induction false} HexHasNoSpace(bs: seq<byte>)
    ensures NoSpace(Hex(bs))
  {
    hide High, Low, IsSpace;
    if bs != [] {
      HexHasNoSpace(bs[..|bs| - 1]);
      PairInverts(bs[|bs| - 1]);
    }
  }

  /** "%02X" of a number */
  function Number(i: nat): string {
    if i < 16 then [Digit(i)] else Number(i / 16) + [Digit(i % 16)]
  }

  function Label(i: nat): string { if i < 16 then "0" + Number(i) else Number(i) }

  /** The number that hexadecimal digits stand for, the most significant first. */
  function Numeral(s: string): nat {
    if s == "" then 0 else
      var d := Value(s[|s| - 1]);
      16 * Numeral(s[..|s| - 1]) + if d.Some? then d.value else 0
  }

  lemma {:induction false} NumeralOfNumber(i: nat)
    ensures Numeral(Number(i)) == i
    ensures Number(i) != "" && (i > 0 ==> Number(i)[0] != '0')
  {
    hide Digit, Value;
    DigitValue(i % 16);
    if i >= 16 {
      NumeralOfNumber(i / 16);
      assert Number(i)[..|Number(i)| - 1] == Number(i / 16);
    } else {
      assert [Digit(i)][..0] == "";
      if i > 0 { NonZeroDigit(i); }
    }
  }

  lemma NonZeroDigit(v: nat)
    requires 0 < v < 16
    ensures Digit(v) != '0'
  {
  }

  /** A label is the number of its cluster in hexadecimal, with one leading zero below 16 and none above. */
  lemma LabelNumbers(i: nat)
    ensures Numeral(Label(i)) == i && |Label(i)| >= 2
    ensures (i < 16 ==> |Label(i)| == 2 && Label(i)[0] == '0') && (i >= 16 ==> Label(i)[0] != '0')
  {
    NumeralOfNumber(i);
    LabelIsPlain(i);
    hide Value;
    if i < 16 { LeadingZero(Digit(i)); }
  }

  lemma LeadingZero(d: char)
    ensures Numeral(['0', d]) == Numeral([d])
  {
    assert ['0', d][..1] == "0" && [d][..0] == "" && "0"[..0] == "";
  }

  predicate PlainLabel(s: string) {
    NoSpace(s) && ':' !in s && 'X' !in s && |s| >= 1
  }

  lemma {:induction false} NumberIsPlain(i: nat)
    ensures PlainLabel(Number(i)) && (i >= 16 ==> |Number(i)| >= 2)
  {
    hide Digit, IsSpace;
    if i >= 16 {
      NumberIsPlain(i / 16);
      DigitValue(i % 16);
    } else {
      DigitValue(i);
    }
  }

  lemma LabelIsPlain(i: nat)
    ensures PlainLabel(Label(i)) && |Label(i)| >= 2
  {
    NumberIsPlain(i);
    hide Number;
  }
}

/** A disk kept as lines of text: a ruler, then one line per cluster. */
module DiskText {
  import opened Basics
  import opened Bytes
  import opened HexText

  const LINE := 256       // the buffers of disk.c
  const LONG_LINE := 512  // the buffer of disk_asm_read_cluster
  const MAX_CLUSTER := 512

  // ----- reading lines

  /** Characters up to and including the first newline. */
  function LineLength(s: string): (n: nat)
    ensures n <= |s| && (s != "" ==> n > 0)
  {
    if s == "" then 0 else if s[0] == '\n' then 1 else 1 + LineLength(s[1..])
  }

  /** fgets with a buffer of `cap`: what it stores and what is left to read. */
  function Fgets(s: string, cap: nat): (r: (string, string))
    requires cap >= 2
    ensures r.0 + r.1 == s && |r.0| < cap && (s != "" ==> |r.1| < |s|)
  {
    var n := Min(LineLength(s), cap - 1);
    (s[..n], s[n..])
  }

  /** What successive calls store until the end of the text. */
  function Chunks(s: string, cap: nat): (r: seq<string>)
    requires cap >= 2
    ensures forall i :: 0 <= i < |r| ==> |r[i]| < cap
    decreases |s|
  {
    if s == "" then [] else var (c, rest) := Fgets(s, cap); [c] + Chunks(rest, cap)
  }

  lemma NoChunksIff(s: string)
    ensures Chunks(s, LINE) == [] <==> s == ""
  {
  }

  function Text(lines: seq<string>): string {
    if lines == [] then "" else lines[0] + "\n" + Text(lines[1..])
  }

  lemma PrintedStep(done: string, line: string, room: nat)
    ensures Reached(Reached(done, room) + line + "\n", room) == Reached(done + line + "\n", room)
  {
    assert Reached(done, room) + line + "\n" == Reached(done, room) + (line + "\n");
    assert done + line + "\n" == done + (line + "\n");
    ReachedStep(done, line + "\n", room);
  }

  lemma TextStep(done: string, lines: seq<string>)
    requires lines != []
    ensures done + Text(lines) == (done + lines[0] + "\n") + Text(lines[1..])
  {
  }

  function Ended(lines: seq<string>): (r: seq<string>)
    ensures |r| == |lines|
  {
    seq(|lines|, i requires 0 <= i < |lines| => lines[i] + "\n")
  }

  predicate OneLine(l: string) { '\n' !in l }

  lemma {:induction false} LineLengthIs(l: string, t: string)
    requires OneLine(l)
    ensures LineLength(l + "\n" + t) == |l| + 1
  {
    var s := l + "\n" + t;
    if l != "" {
      assert s[0] == l[0] && l[0] in l;
      assert s[1..] == l[1..] + "\n" + t;
      LineLengthIs(l[1..], t);
    }
  }

  lemma FgetsLine(l: string, t: string, cap: nat)
    requires OneLine(l) && cap >= 2 && |l| + 1 < cap
    ensures Fgets(l + "\n" + t, cap) == (l + "\n", t)
  {
    LineLengthIs(l, t);
    hide LineLength;
    var s := l + "\n" + t;
    assert s[..|l| + 1] == l + "\n" && s[|l| + 1..] == t;
  }

  lemma {:induction false} ShortLinesComeBack(lines: seq<string>, cap: nat)
    requires cap >= 2 && forall i :: 0 <= i < |lines| ==> OneLine(lines[i]) && |lines[i]| + 1 < cap
    ensures Chunks(Text(lines), cap) == Ended(lines)
  {
    if lines != [] {
      hide Fgets, OneLine;
      var l, rest := lines[0], lines[1..];
      assert Text(lines) == l + "\n" + Text(rest);
      FgetsLine(l, Text(rest), cap);
      ShortLinesComeBack(rest, cap);
      assert Ended(lines) == [l + "\n"] + Ended(rest);
    }
  }

  /** The lines of a text are read back as they are exactly when each fits its buffer with its newline. */
  lemma LinesComeBackIff(lines: seq<string>, cap: nat)
    requires cap >= 2 && forall i :: 0 <= i < |lines| ==> OneLine(lines[i])
    ensures Chunks(Text(lines), cap) == Ended(lines) <==> forall i :: 0 <= i < |lines| ==> |lines[i]| + 1 < cap
  {
    hide OneLine, Text;
    var r := Chunks(Text(lines), cap);
    hide Chunks;
    if forall i :: 0 <= i < |lines| ==> |lines[i]| + 1 < cap {
      ShortLinesComeBack(lines, cap);
    } else {
      var i :| 0 <= i < |lines| && |lines[i]| + 1 >= cap;
      assert |Ended(lines)[i]| == |lines[i]| + 1;
    }
  }

  // ----- trimming and splitting

  function TrimLeft(s: string): string {
    if s != "" && IsSpace(s[0]) then TrimLeft(s[1..]) else s
  }

  function TrimRight(s: string): string {
    if s != "" && IsSpace(s[|s| - 1]) then TrimRight(s[..|s| - 1]) else s
  }

  /** trim_whitespace */
  function Trim(s: string): string { TrimRight(TrimLeft(s)) }

  lemma TrimLine(l: string)
    requires NoSpace(l)
    ensures Trim(l + "\n") == l && Trim(l) == l
  {
    var s := l + "\n";
    assert s[|s| - 1] == '\n' && IsSpace(s[|s| - 1]);
    hide IsSpace;
    if l == "" {
      assert s[1..] == "";
      assert TrimLeft(s) == TrimLeft(s[1..]);
    } else {
      assert s[0] == l[0] && s[..|s| - 1] == l;
      assert TrimLeft(s) == s && TrimRight(s) == TrimRight(l) && TrimRight(l) == l;
    }
  }

  /** The position of the first colon, or the length when there is none. */
  function FirstColon(s: string): (i: nat)
    ensures i <= |s|
  {
    if s == "" || s[0] == ':' then 0 else 1 + FirstColon(s[1..])
  }

  lemma {:induction false} FirstColonIs(name: string, t: string)
    requires ':' !in name
    ensures FirstColon(name + ":" + t) == |name|
  {
    var s := name + ":" + t;
    if name != "" {
      assert s[0] == name[0] && name[0] in name;
      assert s[1..] == name[1..] + ":" + t;
      FirstColonIs(name[1..], t);
    }
  }

  predicate IsRuler(s: string) { |s| >= 3 && s[..3] == "XX:" }

  /** The part after the colon; None for a line without one. */
  function AfterColon(t: string): Option<string> {
    var i := FirstColon(t);
    if i == |t| then None else Some(Trim(t[i + 1..]))
  }

  // ----- what the readers make of the lines

  /** Blank lines and rulers are passed over. */
  predicate Skipped(chunk: string) { Trim(chunk) == "" || IsRuler(Trim(chunk)) }

  /** read_disk_header: the number of cluster lines, and the size that the last of them shows. */
  function Geometry(chunks: seq<string>, count: nat, size: nat): (nat, nat) {
    if chunks == [] then (count, size) else
      var hex := AfterColon(Trim(chunks[0]));
      if Skipped(chunks[0]) || hex.None? || |hex.value| % 2 != 0 then Geometry(chunks[1..], count, size)
      else Geometry(chunks[1..], count + 1, |hex.value| / 2)
  }

  /** The text after the colon of the k-th cluster line. */
  function FindHex(chunks: seq<string>, k: nat): Option<string> {
    if chunks == [] then None
    else if Skipped(chunks[0]) then FindHex(chunks[1..], k)
    else if k == 0 then AfterColon(Trim(chunks[0]))
    else FindHex(chunks[1..], k - 1)
  }

  /** The bytes that fit, then zeros up to the cluster size. */
  function Decoded(hex: string, size: nat): (bs: seq<byte>)
    ensures |bs| == size
  {
    var n := Min(2 * size, |hex|) / 2;
    Unhex(hex, n) + seq(size - n, i => 0)
  }

  /** disk_asm_read_cluster */
  function ReadCluster(file: string, total: nat, size: nat, c: int): Option<seq<byte>> {
    if c < 0 || c >= total then None else
      match FindHex(Chunks(file, LONG_LINE), c)
      case None => None
      case Some(hex) => if size > MAX_CLUSTER then None else Some(Decoded(hex, size))
  }

  // ----- rewriting

  function Zeros(n: nat): (s: string)
    ensures |s| == n
  {
    seq(n, i => '0')
  }

  function Ruler(size: nat): (s: string)
    ensures |s| == 3 + 2 * size
  {
    "XX:" + seq(2 * size, i requires 0 <= i => DIGITS[i % 16])
  }

  /** The text before the first newline, or all of it. */
  function Chomp(chunk: string): string {
    var n := LineLength(chunk);
    if n > 0 && chunk[n - 1] == '\n' then chunk[..n - 1] else chunk
  }

  lemma ChompLine(l: string)
    requires OneLine(l)
    ensures Chomp(l + "\n") == l
  {
    LineLengthIs(l, "");
    assert l + "\n" + "" == l + "\n";
  }

  /** The cluster lines of the file, one per chunk after the first, at most `total`. */
  function OldLines(chunks: seq<string>, total: nat): (r: seq<string>)
    ensures |r| <= total
  {
    if chunks == [] then [] else
      var n := Min(total, |chunks| - 1);
      seq(n, i requires 0 <= i < n => Chomp(chunks[i + 1]))
  }

  /** Missing clusters are made up of zeros. */
  function Filled(lines: seq<string>, total: nat, size: nat): (r: seq<string>)
    requires |lines| <= total
    ensures |r| == total
  {
    seq(total, i requires 0 <= i < total => if i < |lines| then lines[i] else Label(i) + ":" + Zeros(2 * size))
  }

  /** Formatted into a fixed buffer. */
  function NewLine(c: nat, hex: string): (s: string)
    ensures |s| < LINE
  {
    var s := Label(c) + ":" + hex;
    s[..Min(|s|, LINE - 1)]
  }

  /** The lines that update_cluster_line writes after the ruler. */
  function NewLines(file: string, total: nat, size: nat, c: nat, hex: string): (r: seq<string>)
    requires c < total
    ensures |r| == total
  {
    Filled(OldLines(Chunks(file, LINE), total), total, size)[c := NewLine(c, hex)]
  }

  /** The whole new text. */
  function Updated(file: string, total: nat, size: nat, c: nat, hex: string): string
    requires c < total
  {
    Text([Ruler(size)] + NewLines(file, total, size, c, hex))
  }

  // ----- writes that do not reach the disk

  /** What a file holds of a text when only `room` characters can be stored; the program never learns of the rest. */
  function Reached(text: string, room: nat): string { text[..Min(room, |text|)] }

  lemma ReachedStep(text: string, more: string, room: nat)
    ensures Reached(Reached(text, room) + more, room) == Reached(text + more, room)
  {
    var t := Reached(text, room);
    if room <= |text| {
      assert (t + more)[..room] == t == (text + more)[..room];
    } else {
      assert t == text;
    }
  }

  /**
   * The exact condition for "the new text or the old": all of it arrives, or the old text was the beginning of the
   * new one and exactly that much arrives.  The second never happens when the two are equally long.
   */
  lemma NewOrOldIff(text: string, before: string, room: nat)
    ensures Reached(text, room) == text || Reached(text, room) == before <==>
            room >= |text| || (room == |before| && before <= text)
    ensures |before| == |text| ==> (Reached(text, room) == text || Reached(text, room) == before <==> room >= |text|)
  {
    if room < |text| && room == |before| && before <= text { assert text[..room] == before; }
  }

  /** The failing input: on a full file system nothing is left of the disk, whatever it held, and no cluster can be read. */
  lemma FullFileSystemLosesTheDisk(text: string, total: nat, size: nat, k: int)
    ensures Reached(text, 0) == "" && ReadCluster(Reached(text, 0), total, size, k) == None
  {
  }

  // ----- well-formed disks

  datatype Row = Row(name: string, hex: string)

  function RowText(r: Row): string { r.name + ":" + r.hex }

  /** A row is read as a cluster of `size` bytes, and fits the buffers. */
  predicate RowOk(r: Row, size: nat) {
    && NoSpace(r.name) && ':' !in r.name && r.name != "XX"
    && NoSpace(r.hex) && |r.hex| == 2 * size
    && |RowText(r)| + 1 < LINE
  }

  datatype Layout = Layout(ruler: string, rows: seq<Row>)

  function RowTexts(rows: seq<Row>): (r: seq<string>)
    ensures |r| == |rows|
  {
    seq(|rows|, i requires 0 <= i < |rows| => RowText(rows[i]))
  }

  function Lines(d: Layout): seq<string> { [d.ruler] + RowTexts(d.rows) }

  function Render(d: Layout): string { Text(Lines(d)) }

  predicate WellFormed(d: Layout, size: nat) {
    && NoSpace(d.ruler) && IsRuler(d.ruler) && |d.ruler| + 1 < LINE
    && forall i :: 0 <= i < |d.rows| ==> RowOk(d.rows[i], size)
  }

  lemma NoSpaceOneLine(l: string)
    requires NoSpace(l)
    ensures OneLine(l)
  {
  }

  lemma RowHasNoSpace(r: Row, size: nat)
    requires RowOk(r, size)
    ensures NoSpace(RowText(r))
  {
    assert !IsSpace(':');
    hide IsSpace;
  }

  /** Every line of a well-formed disk is read in one piece, by either buffer. */
  lemma LayoutChunks(d: Layout, size: nat, cap: nat)
    requires WellFormed(d, size) && cap >= LINE
    ensures Chunks(Render(d), cap) == Ended(Lines(d))
  {
    var ls := Lines(d);
    forall i | 0 <= i < |ls| ensures OneLine(ls[i]) && |ls[i]| + 1 < cap {
      if i > 0 { RowHasNoSpace(d.rows[i - 1], size); }
      NoSpaceOneLine(ls[i]);
    }
    hide OneLine;
    ShortLinesComeBack(ls, cap);
  }

  /** A row is neither blank nor a ruler, and its hex text is found after the colon. */
  lemma RowIsRead(r: Row, size: nat)
    requires RowOk(r, size)
    ensures !Skipped(RowText(r) + "\n") && AfterColon(Trim(RowText(r) + "\n")) == Some(r.hex)
  {
    var t := RowText(r);
    RowHasNoSpace(r, size);
    TrimLine(t);
    TrimLine(r.hex);
    FirstColonIs(r.name, r.hex);
    hide Trim, FirstColon, IsSpace;
    assert t[|r.name| + 1..] == r.hex;
    assert IsRuler(t) ==> r.name == "XX" by {
      if IsRuler(t) { RulerLabel(r); }
    }
  }

  lemma RulerLabel(r: Row)
    requires ':' !in r.name && IsRuler(RowText(r))
    ensures r.name == "XX"
  {
    var t := RowText(r);
    assert t[..3][0] == 'X' && t[..3][1] == 'X' && t[..3][2] == ':';
    assert t[|r.name|] == ':';
    assert forall i :: 0 <= i < |r.name| ==> t[i] == r.name[i] && r.name[i] in r.name;
  }

  lemma {:induction false} FindRow(rows: seq<Row>, size: nat, k: nat)
    requires k < |rows| && forall i :: 0 <= i < |rows| ==> RowOk(rows[i], size)
    ensures FindHex(Ended(RowTexts(rows)), k) == Some(rows[k].hex)
  {
    hide RowOk, Skipped, AfterColon, Trim, RowText;
    RowIsRead(rows[0], size);
    if k > 0 {
      assert Ended(RowTexts(rows))[1..] == Ended(RowTexts(rows[1..]));
      FindRow(rows[1..], size, k - 1);
    }
  }

  lemma {:induction false} CountRows(rows: seq<Row>, size: nat, count: nat, last: nat)
    requires forall i :: 0 <= i < |rows| ==> RowOk(rows[i], size)
    ensures Geometry(Ended(RowTexts(rows)), count, last) == (count + |rows|, if rows == [] then last else size)
  {
    hide RowOk, Skipped, AfterColon, Trim, RowText;
    if rows != [] {
      RowIsRead(rows[0], size);
      assert |rows[0].hex| == 2 * size by { RowSize(rows[0], size); }
      assert Ended(RowTexts(rows))[1..] == Ended(RowTexts(rows[1..]));
      CountRows(rows[1..], size, count + 1, size);
    }
  }

  lemma RowSize(r: Row, size: nat)
    requires RowOk(r, size)
    ensures |r.hex| == 2 * size
  {
  }

  lemma RulerIsSkipped(s: string)
    requires NoSpace(s) && IsRuler(s)
    ensures Skipped(s + "\n")
  {
    TrimLine(s);
  }

  lemma EndedLines(d: Layout)
    ensures Ended(Lines(d)) == [d.ruler + "\n"] + Ended(RowTexts(d.rows))
  {
  }

  /** Reading a cluster of a well-formed disk decodes its row. */
  lemma ReadIsDecode(d: Layout, size: nat, k: nat)
    requires WellFormed(d, size) && k < |d.rows|
    ensures size <= 127
    ensures ReadCluster(Render(d), |d.rows|, size, k) == Some(Unhex(d.rows[k].hex, size))
  {
    RowFits(d.rows[k], size);
    LayoutChunks(d, size, LONG_LINE);
    RulerIsSkipped(d.ruler);
    FindRow(d.rows, size, k);
    EndedLines(d);
    hide Chunks, Ended, RowTexts, Skipped, AfterColon, Lines, Render, RowOk, RowText, NoSpace, IsRuler;
    assert FindHex([d.ruler + "\n"] + Ended(RowTexts(d.rows)), k) == FindHex(Ended(RowTexts(d.rows)), k);
    assert Decoded(d.rows[k].hex, size) == Unhex(d.rows[k].hex, size);
  }

  lemma RowFits(r: Row, size: nat)
    requires RowOk(r, size)
    ensures |r.hex| == 2 * size && size <= 127
  {
  }

  /** The geometry read from a well-formed disk is its own. */
  lemma GeometryIs(d: Layout, size: nat)
    requires WellFormed(d, size) && d.rows != []
    ensures Geometry(Chunks(Render(d), LINE), 0, 0) == (|d.rows|, size)
  {
    LayoutChunks(d, size, LINE);
    RulerIsSkipped(d.ruler);
    CountRows(d.rows, size, 0, 0);
    EndedLines(d);
    hide Chunks, Ended, RowTexts, Skipped, AfterColon, Lines, Render, RowOk, RowText, NoSpace, IsRuler;
    var all := [d.ruler + "\n"] + Ended(RowTexts(d.rows));
    assert all[1..] == Ended(RowTexts(d.rows));
  }

  // ----- the round trip

  function Replaced(d: Layout, size: nat, c: nat, bs: seq<byte>): Layout
    requires c < |d.rows|
  {
    Layout(Ruler(size), d.rows[c := Row(Label(c), Hex(bs))])
  }

  /** The line written for cluster `c` fits its buffer with its newline. */
  predicate Fits(c: nat, size: nat) { |Label(c)| + 1 + 2 * size + 1 < LINE }

  lemma RowChomps(r: Row, size: nat)
    requires RowOk(r, size)
    ensures Chomp(RowText(r) + "\n") == RowText(r)
  {
    RowHasNoSpace(r, size);
    NoSpaceOneLine(RowText(r));
    ChompLine(RowText(r));
  }

  lemma OldLinesAre(d: Layout, size: nat)
    requires WellFormed(d, size)
    ensures OldLines(Chunks(Render(d), LINE), |d.rows|) == RowTexts(d.rows)
  {
    forall i | 0 <= i < |d.rows| ensures Chomp(RowText(d.rows[i]) + "\n") == RowText(d.rows[i]) {
      RowChomps(d.rows[i], size);
    }
    hide Chunks, Lines, Render, WellFormed, RowText, Chomp;
    LayoutChunks(d, size, LINE);
    EndedLines(d);
  }

  /** Writing a cluster of a well-formed disk rewrites the ruler and that row, and nothing else. */
  lemma UpdateReplaces(d: Layout, size: nat, c: nat, bs: seq<byte>)
    requires WellFormed(d, size) && c < |d.rows| && |bs| == size && Fits(c, size)
    ensures Updated(Render(d), |d.rows|, size, c, Hex(bs)) == Render(Replaced(d, size, c, bs))
  {
    OldLinesAre(d, size);
    hide Chunks, Render, WellFormed, Hex, Label, OldLines, Ruler;
    var n, d' := |d.rows|, Replaced(d, size, c, bs);
    var row := Row(Label(c), Hex(bs));
    var all := Filled(RowTexts(d.rows), n, size);
    assert all == RowTexts(d.rows);
    assert NewLine(c, Hex(bs)) == RowText(row);
    assert RowTexts(d.rows)[c := RowText(row)] == RowTexts(d'.rows);
    assert NewLines(Render(d), n, size, c, Hex(bs)) == RowTexts(d'.rows);
    RenderIs(d');
  }

  lemma RenderIs(d: Layout)
    ensures Render(d) == Text([d.ruler] + RowTexts(d.rows))
  {
  }

  lemma RulerOk(size: nat)
    requires 2 * size + 4 < LINE
    ensures NoSpace(Ruler(size)) && IsRuler(Ruler(size)) && |Ruler(size)| + 1 < LINE
  {
    var r := Ruler(size);
    assert r[..3] == "XX:";
    forall i | 0 <= i < |r| ensures !IsSpace(r[i]) {
      if i >= 3 { DigitValue((i - 3) % 16); }
    }
  }

  lemma NewRowOk(c: nat, size: nat, bs: seq<byte>)
    requires |bs| == size && Fits(c, size)
    ensures RowOk(Row(Label(c), Hex(bs)), size)
  {
    LabelIsPlain(c);
    HexHasNoSpace(bs);
    hide Label, Hex, IsSpace;
    assert Label(c)[0] in Label(c) && Label(c)[0] != "XX"[0];
  }

  lemma ReplacedOk(d: Layout, size: nat, c: nat, bs: seq<byte>)
    requires WellFormed(d, size) && c < |d.rows| && |bs| == size && Fits(c, size)
    ensures WellFormed(Replaced(d, size, c, bs), size)
  {
    LabelIsPlain(c);
    RulerOk(size);
    NewRowOk(c, size, bs);
    hide RowOk, Ruler, NoSpace, IsRuler, Hex, Label;
  }

  /**
   * Write then read: the written cluster holds the bytes, every other cluster what it held before, and
   * the geometry found in the new text is the old one.
   */
  lemma WriteThenRead(d: Layout, size: nat, c: nat, bs: seq<byte>, k: nat)
    requires WellFormed(d, size) && c < |d.rows| && |bs| == size && Fits(c, size) && k < |d.rows|
    ensures var file, n := Render(d), |d.rows|;
            var file' := Updated(file, n, size, c, Hex(bs));
            && WellFormed(Replaced(d, size, c, bs), size) && file' == Render(Replaced(d, size, c, bs))
            && ReadCluster(file', n, size, k) == (if k == c then Some(bs) else ReadCluster(file, n, size, k))
            && Geometry(Chunks(file', LINE), 0, 0) == (n, size)
  {
    var d' := Replaced(d, size, c, bs);
    ReplacedOk(d, size, c, bs);
    UpdateReplaces(d, size, c, bs);
    ReadIsDecode(d, size, k);
    ReadIsDecode(d', size, k);
    GeometryIs(d', size);
    UnhexInvertsHex(bs);
    hide Render, WellFormed, Updated, Chunks, Geometry, ReadCluster, Unhex, Hex, Label, Ruler;
  }

  // ----- disks with fewer or more lines than clusters

  function ZeroBytes(n: nat): (bs: seq<byte>)
    ensures |bs| == n
  {
    seq<byte>(n, i => 0)
  }

  lemma {:induction false} HexOfZeros(n: nat)
    ensures Hex(ZeroBytes(n)) == Zeros(2 * n)
  {
    if n > 0 {
      HexOfZeros(n - 1);
      assert ZeroBytes(n)[..n - 1] == ZeroBytes(n - 1);
      assert Zeros(2 * n) == Zeros(2 * (n - 1)) + ['0', '0'];
    }
  }

  /** The disk cut to, or filled up with clusters of zeros to, `total` clusters. */
  function Resized(d: Layout, total: nat, size: nat): (r: Layout)
    ensures |r.rows| == total
  {
    Layout(d.ruler, seq(total, i requires 0 <= i < total =>
                                 if i < |d.rows| then d.rows[i] else Row(Label(i), Hex(ZeroBytes(size)))))
  }

  lemma ResizedOk(d: Layout, total: nat, size: nat)
    requires WellFormed(d, size) && forall i :: |d.rows| <= i < total ==> Fits(i, size)
    ensures WellFormed(Resized(d, total, size), size)
  {
    var r := Resized(d, total, size);
    hide RowOk, Label, Hex, ZeroBytes, NoSpace, IsRuler;
    forall i | 0 <= i < total ensures RowOk(r.rows[i], size) {
      if i >= |d.rows| {
        assert Fits(i, size);
        NewRowOk(i, size, ZeroBytes(size));
      }
    }
  }

  lemma OldLinesUpTo(d: Layout, size: nat, total: nat)
    requires WellFormed(d, size)
    ensures OldLines(Chunks(Render(d), LINE), total) == RowTexts(d.rows)[..Min(total, |d.rows|)]
  {
    OldLinesAre(d, size);
    hide Render, WellFormed, Chomp;
    var chunks := Chunks(Render(d), LINE);
    LayoutChunks(d, size, LINE);
    EndedLines(d);
    hide Chunks;
    var n, all := Min(total, |d.rows|), OldLines(chunks, |d.rows|);
    assert |chunks| == |d.rows| + 1;
    forall i | 0 <= i < n ensures OldLines(chunks, total)[i] == RowTexts(d.rows)[i] {
      assert all[i] == Chomp(chunks[i + 1]);
    }
  }

  /** A write first brings the disk to its number of clusters. */
  lemma UpdateResizes(d: Layout, total: nat, size: nat, c: nat, hex: string)
    requires WellFormed(d, size) && c < total && WellFormed(Resized(d, total, size), size)
    ensures Updated(Render(d), total, size, c, hex) == Updated(Render(Resized(d, total, size)), total, size, c, hex)
  {
    var r := Resized(d, total, size);
    OldLinesUpTo(d, size, total);
    OldLinesUpTo(r, size, total);
    HexOfZeros(size);
    hide Chunks, Render, WellFormed, Hex, Label, OldLines, Ruler, Zeros, ZeroBytes;
    var before, after := RowTexts(d.rows)[..Min(total, |d.rows|)], RowTexts(r.rows)[..total];
    assert Filled(before, total, size) == Filled(after, total, size);
  }

  /**
   * Whatever number of lines a disk has, after a write each of its clusters holds the bytes written, what its line held
   * before, or, without a line, zeros.
   */
  lemma WriteFillsUp(d: Layout, total: nat, size: nat, c: nat, bs: seq<byte>, k: nat)
    requires WellFormed(d, size) && c < total && k < total && |bs| == size && Fits(c, size)
    requires forall i :: |d.rows| <= i < total ==> Fits(i, size)
    ensures var file' := Updated(Render(d), total, size, c, Hex(bs));
            && ReadCluster(file', total, size, k) ==
                 (if k == c then Some(bs)
                  else if k < |d.rows| then ReadCluster(Render(d), |d.rows|, size, k)
                  else Some(ZeroBytes(size)))
            && Geometry(Chunks(file', LINE), 0, 0) == (total, size)
  {
    var r := Resized(d, total, size);
    ResizedOk(d, total, size);
    UpdateResizes(d, total, size, c, Hex(bs));
    hide Render, WellFormed, Updated, Chunks, Geometry, ReadCluster, Hex, Label, ZeroBytes, Fits;
    WriteThenRead(r, size, c, bs, k);
    ReadIsDecode(r, size, k);
    if k < |d.rows| {
      ReadIsDecode(d, size, k);
    } else {
      UnhexInvertsHex(ZeroBytes(size));
    }
  }

  // ----- runs of writes

  datatype Write = Write(c: nat, bytes: seq<byte>)

  function AfterWrites(file: string, total: nat, size: nat, ws: seq<Write>): string
    requires forall i :: 0 <= i < |ws| ==> ws[i].c < total
    decreases |ws|
  {
    if ws == [] then file
    else AfterWrites(Updated(file, total, size, ws[0].c, Hex(ws[0].bytes)), total, size, ws[1..])
  }

  /** What cluster `k` should hold: the last bytes written to it, if any. */
  function Expected(ws: seq<Write>, k: nat, before: Option<seq<byte>>): Option<seq<byte>> {
    if ws == [] then before
    else Expected(ws[1..], k, if ws[0].c == k then Some(ws[0].bytes) else before)
  }

  /** After any run of writes every cluster reads as the last bytes written to it. */
  lemma {:induction false} WritesThenRead(d: Layout, size: nat, ws: seq<Write>, k: nat)
    requires WellFormed(d, size) && k < |d.rows|
    requires forall i :: 0 <= i < |ws| ==> ws[i].c < |d.rows| && |ws[i].bytes| == size && Fits(ws[i].c, size)
    ensures ReadCluster(AfterWrites(Render(d), |d.rows|, size, ws), |d.rows|, size, k)
            == Expected(ws, k, ReadCluster(Render(d), |d.rows|, size, k))
    decreases |ws|
  {
    hide Render, WellFormed, Updated, ReadCluster, Hex, Fits;
    if ws != [] {
      var w := ws[0];
      WriteThenRead(d, size, w.c, w.bytes, k);
      WritesThenRead(Replaced(d, size, w.c, w.bytes), size, ws[1..], k);
    }
  }
}

/** The disk file, its temporary copy and the geometry globals. */
module DiskFile {
  import opened Basics
  import opened Bytes
  import opened HexText
  import opened DiskText

  class Disk {
    /** The text under the disk's name; a missing file reads as an empty one. */
    var file: string
    var tmp: Option<string>
    var totalClusters: nat
    var clusterSize: nat

    /** The text under the disk's name after each file operation so far: what a crash there would leave. */
    ghost var crashes: seq<string>

    constructor (text: string, total: nat, size: nat)
      ensures file == text && tmp == None && totalClusters == total && clusterSize == size && crashes == []
    {
      file, tmp, totalClusters, clusterSize, crashes := text, None, total, size, [];
    }

    /** read_disk_header */
    method ReadHeader()
      modifies this`totalClusters, this`clusterSize
      ensures var (count, size) := Geometry(Chunks(file, LINE), 0, 0);
              if count > 0 then totalClusters == count && clusterSize == size
              else totalClusters == old(totalClusters) && clusterSize == old(clusterSize)
    {
      hide Fgets, Skipped, AfterColon, Trim;
      var rest, count := file, 0;
      var size: nat := 0;
      while rest != ""
        invariant Geometry(Chunks(rest, LINE), count, size) == Geometry(Chunks(file, LINE), 0, 0)
        decreases |rest|
      {
        ghost var chunks := Chunks(rest, LINE);
        var (line, next) := Fgets(rest, LINE);
        assert chunks[0] == line && chunks[1..] == Chunks(next, LINE);
        rest := next;
        if Skipped(line) {
          continue;
        }
        var hex := AfterColon(Trim(line));
        if hex.None? || |hex.value| % 2 != 0 {
          continue;
        }
        size := |hex.value| / 2;
        count := count + 1;
      }
      if count > 0 {
        totalClusters, clusterSize := count, size;
      }
    }

    /** The lines in memory: those of the file, then clusters of zeros. */
    method LoadLines() returns (clusters: array<string>)
      ensures fresh(clusters)
      ensures clusters[..] == Filled(OldLines(Chunks(file, LINE), totalClusters), totalClusters, clusterSize)
    {
      hide Chunks, OldLines, Label, Zeros;
      clusters := new string[totalClusters](i => "");
      var i := ReadLines(clusters);
      ghost var lines := OldLines(Chunks(file, LINE), totalClusters);
      assert forall k :: 0 <= k < i ==> clusters[k] == clusters[..i][k];
      while i < totalClusters
        invariant |lines| <= i <= totalClusters
        invariant forall k :: 0 <= k < i ==> clusters[k] == Filled(lines, totalClusters, clusterSize)[k]
      {
        clusters[i] := Label(i) + ":" + Zeros(2 * clusterSize);
        i := i + 1;
      }
    }

    /** Skips the first line and stores the following ones, at most as many as there are places. */
    method ReadLines(clusters: array<string>) returns (i: nat)
      modifies clusters
      ensures i <= clusters.Length && clusters[..i] == OldLines(Chunks(file, LINE), clusters.Length)
    {
      hide Fgets, Chomp;
      ghost var all := Chunks(file, LINE);
      i := 0;
      if file == "" {
        return;
      }
      var rest := Fgets(file, LINE).1;
      assert Chunks(rest, LINE) == all[1..];
      hide Chunks;
      while i < clusters.Length && rest != ""
        invariant i <= clusters.Length && i + 1 <= |all|
        invariant Chunks(rest, LINE) == all[i + 1..]
        invariant forall k :: 0 <= k < i ==> clusters[k] == Chomp(all[k + 1])
        decreases |rest|
      {
        NoChunksIff(rest);
        rest := ReadLine(clusters, i, rest);
        i := i + 1;
        assert Chunks(rest, LINE) == all[i..][1..];
      }
      NoChunksIff(rest);
      assert i == Min(clusters.Length, |all| - 1);
    }

    method ReadLine(clusters: array<string>, i: nat, rest: string) returns (next: string)
      requires i < clusters.Length && rest != ""
      modifies clusters
      ensures clusters[..] == old(clusters[..])[i := Chomp(Chunks(rest, LINE)[0])]
      ensures |next| < |rest| && Chunks(next, LINE) == Chunks(rest, LINE)[1..]
    {
      hide Chomp;
      var r := Fgets(rest, LINE);
      clusters[i] := Chomp(r.0);
      next := r.1;
    }

    /** One write to the temporary file, which has room for `room` characters. */
    method Print(line: string, room: nat)
      requires tmp.Some?
      modifies this`tmp, this`crashes
      ensures tmp == Some(Reached(old(tmp).value + line + "\n", room)) && crashes == old(crashes) + [file]
    {
      tmp := Some(Reached(tmp.value + line + "\n", room));
      crashes := crashes + [file];
    }

    /** Ruler and clusters go to the temporary file, line by line; no result is looked at. */
    method PrintAll(clusters: array<string>, room: nat)
      modifies this`tmp, this`crashes
      ensures tmp == Some(Reached(Text([Ruler(clusterSize)] + clusters[..]), room))
      ensures |old(crashes)| <= |crashes| && crashes[..|old(crashes)|] == old(crashes)
      ensures forall i :: |old(crashes)| <= i < |crashes| ==> crashes[i] == file
    {
      hide Ruler;
      ghost var all := [Ruler(clusterSize)] + clusters[..];
      tmp := Some("");
      crashes := crashes + [file];
      ghost var done := "" + Ruler(clusterSize) + "\n";
      TextStep("", all);
      Print(Ruler(clusterSize), room);
      assert all[1..] == clusters[..] && "" + Text(all) == Text(all);
      for k := 0 to clusters.Length
        invariant tmp == Some(Reached(done, room)) && done + Text(clusters[k..]) == Text(all)
        invariant |old(crashes)| <= |crashes| && crashes[..|old(crashes)|] == old(crashes)
        invariant forall i :: |old(crashes)| <= i < |crashes| ==> crashes[i] == file
      {
        assert clusters[k..][0] == clusters[k] && clusters[k..][1..] == clusters[k + 1..];
        TextStep(done, clusters[k..]);
        PrintedStep(done, clusters[k], room);
        Print(clusters[k], room);
        done := done + clusters[k] + "\n";
      }
      assert clusters[clusters.Length..] == [] && done + "" == done;
    }

    /**
     * update_cluster_line.  `opens` and `renames` say whether the temporary file can be opened and renamed, `room` how
     * many characters it can hold.  The disk is replaced in one step or not at all, by as much of the
     * new text as has reached the temporary file.
     */
    method UpdateClusterLine(clu: int, hex: string, opens: bool, room: nat, renames: bool)
      modifies this
      ensures file == if 0 <= clu < old(totalClusters) && opens && renames
                      then Reached(Updated(old(file), old(totalClusters), old(clusterSize), clu, hex), room) else old(file)
      ensures |old(crashes)| <= |crashes| && crashes[..|old(crashes)|] == old(crashes)
      ensures forall i :: |old(crashes)| <= i < |crashes| ==>
                crashes[i] == old(file) || (i == |crashes| - 1 && crashes[i] == file)
      ensures var (count, size) := Geometry(Chunks(file, LINE), 0, 0);
              if 0 <= clu < old(totalClusters) && opens && renames && count > 0
              then totalClusters == count && clusterSize == size
              else totalClusters == old(totalClusters) && clusterSize == old(clusterSize)
    {
      hide Filled, OldLines, Chunks, Geometry, Text, NewLine, Reached;
      var clusters := LoadLines();
      if clu < 0 || clu >= totalClusters {
        return;
      }
      clusters[clu] := NewLine(clu, hex);
      assert clusters[..] == NewLines(file, totalClusters, clusterSize, clu, hex);
      if !opens {
        return;
      }
      PrintAll(clusters, room);
      if !renames {
        tmp := None;
        crashes := crashes + [file];
        return;
      }
      file, tmp := tmp.value, None;
      crashes := crashes + [file];
      ReadHeader();
    }

    /** disk_asm_read_cluster */
    method Read(clu: int) returns (buf: Option<seq<byte>>)
      ensures buf == ReadCluster(file, totalClusters, clusterSize, clu)
    {
      hide Fgets, Skipped, AfterColon, Trim, PairValue;
      if clu < 0 || clu >= totalClusters {
        return None;
      }
      var hex := FindLine(clu);
      if hex.None? || clusterSize > MAX_CLUSTER {
        return None;
      }
      var n := Min(2 * clusterSize, |hex.value|) / 2;
      var bytes: seq<byte> := [];
      for i := 0 to n
        invariant bytes == Unhex(hex.value, i)
      {
        bytes := bytes + [PairValue(hex.value[2 * i], hex.value[2 * i + 1])];
      }
      return Some(bytes + seq(clusterSize - n, i => 0));
    }

    /** The scan for the k-th cluster line. */
    method FindLine(k: nat) returns (hex: Option<string>)
      ensures hex == FindHex(Chunks(file, LONG_LINE), k)
    {
      hide Fgets, Skipped, AfterColon, Trim;
      var rest, current := file, 0;
      while rest != ""
        invariant current <= k
        invariant FindHex(Chunks(rest, LONG_LINE), k - current) == FindHex(Chunks(file, LONG_LINE), k)
        decreases |rest|
      {
        ghost var chunks := Chunks(rest, LONG_LINE);
        var (line, next) := Fgets(rest, LONG_LINE);
        assert chunks[0] == line && chunks[1..] == Chunks(next, LONG_LINE);
        rest := next;
        if Skipped(line) {
          continue;
        }
        if current == k {
          return AfterColon(Trim(line));
        }
        current := current + 1;
      }
      return None;
    }

    /**
     * disk_asm_write_cluster: 0 for every cluster in range once the digits have found memory, whether or not the
     * file could be replaced or has arrived whole.
     */
    method Write(clu: int, bytes: seq<byte>, memory: bool, opens: bool, room: nat, renames: bool) returns (rc: int)
      requires |bytes| == clusterSize
      modifies this
      ensures rc == if 0 <= clu < old(totalClusters) && memory then 0 else -1
      ensures file == if rc == 0 && opens && renames
                      then Reached(Updated(old(file), old(totalClusters), old(clusterSize), clu, Hex(bytes)), room)
                      else old(file)
      ensures |old(crashes)| <= |crashes|
      ensures forall i :: |old(crashes)| <= i < |crashes| ==>
                crashes[i] == old(file) || (i == |crashes| - 1 && crashes[i] == file)
    {
      hide Updated, Chunks, Geometry, High, Low, Reached;
      if clu < 0 || clu >= totalClusters || !memory {
        return -1;
      }
      var hex := "";
      for i := 0 to clusterSize
        invariant hex == Hex(bytes[..i])
      {
        assert bytes[..i + 1][..i] == bytes[..i];
        hex := hex + [High(bytes[i]), Low(bytes[i])];
      }
      assert bytes[..clusterSize] == bytes;
      UpdateClusterLine(clu, hex, opens, room, renames);
      return 0;
    }

    /** disk_asm_zero_cluster; `memory` covers both of its buffers. */
    method Zero(clu: int, memory: bool, opens: bool, room: nat, renames: bool) returns (rc: int)
      modifies this
      ensures rc == if 0 <= clu < old(totalClusters) && memory then 0 else -1
      ensures file == if rc == 0 && opens && renames
                      then Reached(Updated(old(file), old(totalClusters), old(clusterSize), clu,
                                           Hex(seq(old(clusterSize), i => 0))), room)
                      else old(file)
    {
      hide Updated, Hex, Reached;
      if clu < 0 || clu >= totalClusters || !memory {
        return -1;
      }
      rc := Write(clu, seq<byte>(clusterSize, i => 0), memory, opens, room, renames);
    }
  }
}
