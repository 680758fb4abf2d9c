/**
 The text of a snapshot file. The printed form of one prefix stands in for the
 library's: what matters is that it parses back and contains no newline.
 */
module SnapshotText {
  import opened Bits
  import opened Prefixes
  import opened Snapshot
  import opened Wrappers

  function Digit(d: nat): char
    requires d < 10
  {
    "0123456789"[d]
  }

  function DigitValue(c: char): Option<nat> {
    if '0' <= c <= '9' then Some((c as int) - ('0' as int)) else None
  }

  function PrintNat(n: nat): string {
    if n < 10 then [Digit(n)] else PrintNat(n / 10) + [Digit(n % 10)]
  }

  function ParseNat(s: string): Option<nat> {
    if s == [] then None
    else
      var last := DigitValue(s[|s| - 1]);
      if last.None? then None
      else if |s| == 1 then last
      else
        var front := ParseNat(s[..|s| - 1]);
        if front.None? then None else Some(10 * front.value + last.value)
  }

  function IndexOf(s: string, c: char): (i: nat)
    ensures i <= |s|
  {
    if s == [] || s[0] == c then 0 else 1 + IndexOf(s[1..], c)
  }

  function PrintPrefix(p: Prefix): string {
    [if p.fam == V4 then '4' else '6'] + PrintNat(p.addr) + "/" + PrintNat(p.len)
  }

  function ParsePrefix(line: string): Option<Prefix> {
    if line == [] || (line[0] != '4' && line[0] != '6') then None
    else
      var f := if line[0] == '4' then V4 else V6;
      var i := IndexOf(line, '/');
      if i == 0 || i == |line| then None
      else
        var addr, len := ParseNat(line[1..i]), ParseNat(line[i + 1..]);
        if addr.None? || len.None? then None
        else
          if addr.value < Pow2(Width(f)) && len.value <= Width(f)
          then Some(RawPrefix(f, addr.value, len.value)) else None
  }

  /** strings.Split on newlines: always at least one piece. */
  function SplitLines(text: string): (lines: seq<string>)
    ensures lines != []
    decreases |text|
  {
    var i := IndexOf(text, '\n');
    if i == |text| then [text] else [text[..i]] + SplitLines(text[i + 1..])
  }

  /** The file SaveLastGood writes for a canonical list. */
  function Encode(ps: seq<Prefix>): string {
    if ps == [] then "" else PrintPrefix(ps[0]) + "\n" + Encode(ps[1..])
  }

  /** What LastGood makes of the lines of a file: only the last line may be empty. */
  function DecodeLines(lines: seq<string>): Result<seq<Prefix>> {
    if lines == [] then Ok([])
    else if lines == [""] then Ok([])
    else
      var p := ParsePrefix(lines[0]);
      if p.None? then Err("unparsable line")
      else if Masked(p.value) != p.value then Err("not a canonical prefix")
      else
        var rest := DecodeLines(lines[1..]);
        if rest.Err? then rest else Ok([p.value] + rest.value)
  }

  function Decode(text: string): Result<seq<Prefix>> {
    DecodeLines(SplitLines(text))
  }

  predicate Digits(s: string) {
    forall i :: 0 <= i < |s| ==> '0' <= s[i] <= '9'
  }

  lemma DigitRoundTrip(d: nat)
    requires d < 10
    ensures DigitValue(Digit(d)) == Some(d)
  {
  }

  lemma {:induction false} ParseSnoc(s: string, d: nat)
    requires d < 10 && ParseNat(s).Some?
    ensures ParseNat(s + [Digit(d)]) == Some(10 * ParseNat(s).value + d)
  {
    DigitRoundTrip(d);
    var t := s + [Digit(d)];
    assert t[|t| - 1] == Digit(d) && t[..|t| - 1] == s;
  }

  lemma DivTen(n: nat)
    ensures n == 10 * (n / 10) + n % 10
  {
  }

  lemma DigitsSnoc(s: string, d: nat)
    requires d < 10 && Digits(s)
    ensures Digits(s + [Digit(d)])
  {
    DigitRoundTrip(d);
  }

  lemma {:induction false} PrintNatParses(n: nat)
    ensures PrintNat(n) != [] && Digits(PrintNat(n)) && ParseNat(PrintNat(n)) == Some(n)
  {
    if n < 10 {
      DigitRoundTrip(n);
    } else {
      PrintNatParses(n / 10);
      ParseSnoc(PrintNat(n / 10), n % 10);
      DigitsSnoc(PrintNat(n / 10), n % 10);
      DivTen(n);
    }
  }

  lemma {:induction false} IndexAfter(front: string, c: char, back: string)
    requires forall i :: 0 <= i < |front| ==> front[i] != c
    ensures IndexOf(front + [c] + back, c) == |front|
  {
    var s := front + [c] + back;
    if front != [] {
      assert s[1..] == front[1..] + [c] + back;
      IndexAfter(front[1..], c, back);
    }
  }

  /** A line of a family mark, digits, a slash and digits parses to its parts. */
  lemma {:induction false} ParseParts(line: string, mark: char, addr: string, len: string)
    requires mark == '4' || mark == '6'
    requires line == [mark] + addr + ['/'] + len && Digits(addr)
    ensures IndexOf(line, '/') == 1 + |addr|
    ensures line[0] == mark && line[1..1 + |addr|] == addr && line[2 + |addr|..] == len
  {
    IndexAfter([mark] + addr, '/', len);
  }

  /** A printed prefix parses back. */
  lemma PrintPrefixParses(p: Prefix)
    ensures ParsePrefix(PrintPrefix(p)) == Some(p)
  {
    var mark := if p.fam == V4 then '4' else '6';
    PrintNatParses(p.addr);
    PrintNatParses(p.len);
    ParseParts(PrintPrefix(p), mark, PrintNat(p.addr), PrintNat(p.len));
  }

  /** A printed prefix holds no newline. */
  lemma PrintPrefixIsLine(p: Prefix)
    ensures forall i :: 0 <= i < |PrintPrefix(p)| ==> PrintPrefix(p)[i] != '\n'
  {
    PrintNatParses(p.addr);
    PrintNatParses(p.len);
  }

  lemma FirstLine(line: string, rest: string)
    requires forall i :: 0 <= i < |line| ==> line[i] != '\n'
    ensures SplitLines(line + "\n" + rest) == [line] + SplitLines(rest)
  {
    var text := line + ['\n'] + rest;
    IndexAfter(line, '\n', rest);
    assert text[..|line|] == line && text[|line| + 1..] == rest;
  }

  lemma {:induction false} DecodeFirst(line: string, lines: seq<string>, p: Prefix)
    requires ParsePrefix(line) == Some(p) && Masked(p) == p && lines != []
    requires DecodeLines(lines).Ok?
    ensures DecodeLines([line] + lines) == Ok([p] + DecodeLines(lines).value)
  {
    var all := [line] + lines;
    assert all[0] == line && all[1..] == lines;
  }

  function PrintAll(ps: seq<Prefix>): seq<string> {
    if ps == [] then [""] else [PrintPrefix(ps[0])] + PrintAll(ps[1..])
  }

  /** The lines of an encoded list are its printed prefixes and one empty last line. */
  lemma {:induction false} EncodedLines(ps: seq<Prefix>)
    ensures SplitLines(Encode(ps)) == PrintAll(ps)
  {
    if ps != [] {
      PrintPrefixIsLine(ps[0]);
      FirstLine(PrintPrefix(ps[0]), Encode(ps[1..]));
      EncodedLines(ps[1..]);
    }
  }

  lemma {:induction false} DecodePrinted(ps: seq<Prefix>)
    requires AllMasked(ps)
    ensures DecodeLines(PrintAll(ps)) == Ok(ps)
  {
    if ps != [] {
      PrintPrefixParses(ps[0]);
      DecodePrinted(ps[1..]);
      assert PrintAll(ps[1..]) != [];
      DecodeFirst(PrintPrefix(ps[0]), PrintAll(ps[1..]), ps[0]);
      assert ps == [ps[0]] + ps[1..];
    }
  }

  /** Loading an encoded canonical list gives the list back. */
  lemma {:induction false} DecodeEncode(ps: seq<Prefix>)
    requires AllMasked(ps)
    ensures Decode(Encode(ps)) == Ok(ps)
  {
    EncodedLines(ps);
    DecodePrinted(ps);
  }

  predicate CanonicalLine(line: string) {
    ParsePrefix(line).Some? && Masked(ParsePrefix(line).value) == ParsePrefix(line).value
  }

  /** Every line is a canonical prefix, except that the last may be empty. */
  ghost predicate Loadable(lines: seq<string>) {
    forall i :: 0 <= i < |lines| ==> CanonicalLine(lines[i]) || (i == |lines| - 1 && lines[i] == "")
  }

  lemma LoadableTail(lines: seq<string>)
    requires lines != [] && lines != [""]
    ensures Loadable(lines) <==> CanonicalLine(lines[0]) && Loadable(lines[1..])
  {
    var tail := lines[1..];
    assert forall i :: 0 <= i < |tail| ==> tail[i] == lines[i + 1];
    if CanonicalLine(lines[0]) && Loadable(tail) {
      forall i | 0 <= i < |lines| ensures CanonicalLine(lines[i]) || (i == |lines| - 1 && lines[i] == "") {
        if i > 0 { assert lines[i] == tail[i - 1]; }
      }
    }
  }

  /** A file loads exactly when its lines are loadable; anything else is an error, never a silent skip. */
  lemma {:induction false} LoadsIff(lines: seq<string>)
    ensures DecodeLines(lines).Ok? <==> Loadable(lines)
  {
    if lines != [] && lines != [""] {
      LoadableTail(lines);
      LoadsIff(lines[1..]);
    }
  }

  /** The entries are the lines in order, without the empty last one. */
  ghost predicate LineByLine(ps: seq<Prefix>, lines: seq<string>) {
    && |ps| == (if lines != [] && lines[|lines| - 1] == "" then |lines| - 1 else |lines|)
    && forall i :: 0 <= i < |ps| ==> ParsePrefix(lines[i]) == Some(ps[i])
  }

  /** What loads is one masked entry per line, so saving what was loaded keeps every entry. */
  lemma {:induction false} LoadedEntries(lines: seq<string>)
    requires DecodeLines(lines).Ok?
    ensures AllMasked(DecodeLines(lines).value) && LineByLine(DecodeLines(lines).value, lines)
  {
    if lines != [] && lines != [""] { LoadedEntries(lines[1..]); }
  }
}
