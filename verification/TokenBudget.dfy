/**
 * Budgets on extracted image text (pkg/backend/image_extract_structured.go and
 * image_extract.go): a streaming token estimate, a binary search for the longest prefix in
 * budget, whitespace clean-up, and truncation at a byte limit.
 */
module TokenBudget {
  import opened TextOps

  predicate IsAsciiAlnum(c: char) { 'a' <= c <= 'z' || 'A' <= c <= 'Z' || '0' <= c <= '9' }

  lemma AlnumIsNotSpace(c: char)
    ensures IsAsciiAlnum(c) ==> !IsSpace(c)
  {
  }

  // ---------------------------------------------------------------- the estimate

  function Quarter(run: nat): nat { (run + 3) / 4 }

  /** The counter after `tokens` are counted and `run` letters or digits are waiting. */
  function Tokens(s: string, tokens: nat, run: nat): nat {
    if s == "" then tokens + Quarter(run)
    else if IsAsciiAlnum(s[0]) then Tokens(s[1..], tokens, run + 1)
    else Tokens(s[1..], tokens + Quarter(run) + (if IsSpace(s[0]) then 0 else 1), 0)
  }

  function Estimate(s: string): nat { Tokens(s, 0, 0) }

  lemma {:induction false} TokensFloor(s: string, tokens: nat, run: nat)
    ensures Tokens(s, tokens, run) >= tokens + Quarter(run)
    decreases |s|
  {
    if s != "" {
      if IsAsciiAlnum(s[0]) {
        TokensFloor(s[1..], tokens, run + 1);
      } else {
        TokensFloor(s[1..], tokens + Quarter(run) + (if IsSpace(s[0]) then 0 else 1), 0);
      }
    }
  }

  lemma {:induction false} TokensOffset(s: string, tokens: nat, run: nat)
    ensures Tokens(s, tokens, run) == tokens + Tokens(s, 0, run)
    decreases |s|
  {
    if s != "" {
      if IsAsciiAlnum(s[0]) {
        TokensOffset(s[1..], tokens, run + 1);
      } else {
        var k := Quarter(run) + (if IsSpace(s[0]) then 0 else 1);
        TokensOffset(s[1..], tokens + k, 0);
        TokensOffset(s[1..], k, 0);
      }
    }
  }

  lemma {:induction false} TokensAt(a: string, c: char, b: string, tokens: nat, run: nat)
    requires !IsAsciiAlnum(c)
    ensures Tokens(a + [c] + b, tokens, run) == Tokens(a, tokens, run) + (if IsSpace(c) then 0 else 1) + Estimate(b)
    decreases |a|
  {
    var t := a + [c] + b;
    if a == "" {
      assert t[0] == c && t[1..] == b;
      TokensOffset(b, tokens + Quarter(run) + (if IsSpace(c) then 0 else 1), 0);
    } else {
      assert t[0] == a[0] && t[1..] == a[1..] + [c] + b;
      if IsAsciiAlnum(a[0]) {
        TokensAt(a[1..], c, b, tokens, run + 1);
      } else {
        TokensAt(a[1..], c, b, tokens + Quarter(run) + (if IsSpace(a[0]) then 0 else 1), 0);
      }
    }
  }

  /** A rune that is no ASCII letter or digit cuts the text in two, and costs one unless it is white space. */
  lemma EstimateAt(a: string, c: char, b: string)
    requires var n := c as int; !(48 <= n <= 57) && !(65 <= n <= 90) && !(97 <= n <= 122)
    ensures Estimate(a + [c] + b) == Estimate(a) + (if IsSpace(c) then 0 else 1) + Estimate(b)
  {
    TokensAt(a, c, b, 0, 0);
  }

  /** A run of n ASCII letters and digits costs n / 4, rounded up. */
  lemma {:induction false} TokensOfRun(s: string, tokens: nat, run: nat)
    requires forall i :: 0 <= i < |s| ==> var n := s[i] as int; 48 <= n <= 57 || 65 <= n <= 90 || 97 <= n <= 122
    ensures 4 * (Tokens(s, tokens, run) - tokens) - 4 < run + |s| <= 4 * (Tokens(s, tokens, run) - tokens)
    decreases |s|
  {
    if s != "" {
      TokensOfRun(s[1..], tokens, run + 1);
    }
  }

  /** A longer text is never estimated lower than its prefix. */
  lemma {:induction false} TokensMonotone(a: string, b: string, tokens: nat, run: nat)
    ensures Tokens(a, tokens, run) <= Tokens(a + b, tokens, run)
    decreases |a|
  {
    if a == "" {
      assert a + b == b;
      TokensFloor(b, tokens, run);
    } else {
      assert (a + b)[0] == a[0] && (a + b)[1..] == a[1..] + b;
      if IsAsciiAlnum(a[0]) {
        TokensMonotone(a[1..], b, tokens, run + 1);
      } else {
        TokensMonotone(a[1..], b, tokens + Quarter(run) + (if IsSpace(a[0]) then 0 else 1), 0);
      }
    }
  }

  lemma PrefixMonotone(s: string, i: nat, j: nat)
    requires i <= j <= |s|
    ensures Estimate(s[..i]) <= Estimate(s[..j])
  {
    assert s[..j] == s[..i] + s[i..j];
    TokensMonotone(s[..i], s[i..j], 0, 0);
  }

  /** The estimate is zero exactly on blank text, so the source's floor of one never applies. */
  lemma {:induction false} BlankIsFree(s: string)
    ensures Estimate(s) == 0 <==> TrimLeft(s) == ""
  {
    if s != "" {
      if IsSpace(s[0]) {
        AlnumIsNotSpace(s[0]);
        BlankIsFree(s[1..]);
      } else if IsAsciiAlnum(s[0]) {
        TokensFloor(s[1..], 0, 1);
      } else {
        TokensFloor(s[1..], 1, 0);
      }
    }
  }

  lemma {:induction false} TrimLeftKeepsEstimate(s: string)
    ensures Estimate(TrimLeft(s)) == Estimate(s)
  {
    if s != "" && IsSpace(s[0]) {
      AlnumIsNotSpace(s[0]);
      TrimLeftKeepsEstimate(s[1..]);
    }
  }

  lemma PrefixIsCheaper(u: string, t: string)
    requires u <= t
    ensures Estimate(u) <= Estimate(t) && ByteLen(u) <= ByteLen(t)
  {
    assert t == u + t[|u|..];
    TokensMonotone(u, t[|u|..], 0, 0);
    ByteLenConcat(u, t[|u|..]);
  }

  lemma SuffixIsShorter(s: string, k: nat)
    requires k <= |s|
    ensures ByteLen(s[k..]) <= ByteLen(s)
  {
    assert s == s[..k] + s[k..];
    ByteLenConcat(s[..k], s[k..]);
  }

  /** Trimming never raises the estimate or the length in bytes. */
  lemma TrimIsCheaper(s: string)
    ensures Estimate(Trim(s)) <= Estimate(s) && ByteLen(Trim(s)) <= ByteLen(s)
  {
    var t := TrimLeft(s);
    TrimLeftIsSuffix(s);
    TrimLeftKeepsEstimate(s);
    SuffixIsShorter(s, |s| - |t|);
    TrimRightIsPrefix(t);
    PrefixIsCheaper(TrimRight(t), t);
  }

  method EstimateTokens(value: string) returns (r: nat)
    ensures r == Estimate(value)
  {
    var tokens: nat, asciiRunes: nat := 0, 0;
    for i := 0 to |value|
      invariant Tokens(value[i..], tokens, asciiRunes) == Estimate(value)
    {
      assert value[i..][1..] == value[i + 1..];
      if IsAsciiAlnum(value[i]) {
        asciiRunes := asciiRunes + 1;
        continue;
      }
      if asciiRunes > 0 {
        tokens := tokens + (asciiRunes + 3) / 4;
        asciiRunes := 0;
      }
      if IsSpace(value[i]) {
        continue;
      }
      tokens := tokens + 1;
    }
    assert value[|value|..] == "";
    if asciiRunes > 0 {
      tokens := tokens + (asciiRunes + 3) / 4;
    }
    BlankIsFree(value);
    BlankTrims(value);
    assert !(tokens == 0 && Trim(value) != "");
    r := tokens;
  }

  /** The longest prefix whose estimate stays in the budget. */
  predicate LongestInBudget(s: string, max: int, k: nat) {
    k <= |s| && Estimate(s[..k]) <= max && forall j :: k < j <= |s| ==> Estimate(s[..j]) > max
  }

  method TruncateByEstimatedTokens(value: string, maxTokens: int) returns (r: string)
    ensures maxTokens <= 0 || Estimate(value) <= maxTokens ==> r == value
    ensures maxTokens > 0 && Estimate(value) > maxTokens ==>
              exists k: nat :: LongestInBudget(value, maxTokens, k) && r == Trim(value[..k])
    ensures maxTokens > 0 ==> Estimate(r) <= maxTokens
  {
    if maxTokens <= 0 {
      return value;
    }
    var all := EstimateTokens(value);
    if all <= maxTokens {
      return value;
    }
    var lo, hi := 0, |value|;
    while lo < hi
      invariant 0 <= lo <= hi <= |value|
      invariant Estimate(value[..lo]) <= maxTokens
      invariant forall j :: hi < j <= |value| ==> Estimate(value[..j]) > maxTokens
      decreases hi - lo
    {
      var mid := (lo + hi + 1) / 2;
      var e := EstimateTokens(value[..mid]);
      if e <= maxTokens {
        lo := mid;
      } else {
        forall j | mid <= j <= |value|
          ensures Estimate(value[..j]) > maxTokens
        {
          PrefixMonotone(value, mid, j);
        }
        hi := mid - 1;
      }
    }
    TrimIsCheaper(value[..lo]);
    assert LongestInBudget(value, maxTokens, lo);
    r := Trim(value[..lo]);
  }

  // ---------------------------------------------------------------- bytes

  function RuneLen(c: char): nat {
    var n := c as int;
    if n < 0x80 then 1 else if n < 0x800 then 2 else if n < 0x10000 then 3 else 4
  }

  function ByteLen(s: string): nat { if s == "" then 0 else RuneLen(s[0]) + ByteLen(s[1..]) }

  lemma {:induction false} ByteLenConcat(a: string, b: string)
    ensures ByteLen(a + b) == ByteLen(a) + ByteLen(b)
  {
    if a == "" {
      assert a + b == b;
    } else {
      assert (a + b)[0] == a[0] && (a + b)[1..] == a[1..] + b;
      ByteLenConcat(a[1..], b);
    }
  }

  /** The bytes of a rune in UTF-8, as section 3 of RFC 3629 lays them out. */
  function Utf8(c: char): seq<int> {
    var n := c as int;
    var a := n / 0x40;
    var b := a / 0x40;
    if n < 0x80 then [n]
    else if n < 0x800 then [0xC0 + a, 0x80 + n % 0x40]
    else if n < 0x10000 then [0xE0 + b, 0x80 + a % 0x40, 0x80 + n % 0x40]
    else [0xF0 + b / 0x40, 0x80 + b % 0x40, 0x80 + a % 0x40, 0x80 + n % 0x40]
  }

  function FromUtf8(bytes: seq<int>): int
    requires 1 <= |bytes| <= 4
  {
    if |bytes| == 1 then bytes[0]
    else if |bytes| == 2 then (bytes[0] - 0xC0) * 0x40 + (bytes[1] - 0x80)
    else if |bytes| == 3 then ((bytes[0] - 0xE0) * 0x40 + (bytes[1] - 0x80)) * 0x40 + (bytes[2] - 0x80)
    else (((bytes[0] - 0xF0) * 0x40 + (bytes[1] - 0x80)) * 0x40 + (bytes[2] - 0x80)) * 0x40 + (bytes[3] - 0x80)
  }

  /** A rune is as long as its encoding, whose first byte tells the length and which decodes to the rune. */
  lemma RuneLenExact(c: char)
    ensures var b := Utf8(c);
            && |b| == RuneLen(c) && 1 <= |b| <= 4 && FromUtf8(b) == c as int
            && (|b| == 1 <==> b[0] < 0x80) && (|b| == 2 <==> 0xC0 <= b[0] < 0xE0)
            && (|b| == 3 <==> 0xE0 <= b[0] < 0xF0) && (|b| == 4 <==> 0xF0 <= b[0])
  {
    var n := c as int;
    var a := n / 0x40;
    var b := a / 0x40;
    assert n == a * 0x40 + n % 0x40 && a == b * 0x40 + a % 0x40 && b == b / 0x40 * 0x40 + b % 0x40;
  }

  function Encoded(s: string): seq<int> { if s == "" then [] else Utf8(s[0]) + Encoded(s[1..]) }

  lemma {:induction false} BytesOfEncoding(s: string)
    ensures ByteLen(s) == |Encoded(s)|
  {
    if s != "" {
      RuneLenExact(s[0]);
      BytesOfEncoding(s[1..]);
    }
  }

  /** The longest prefix of whole runes that fits the byte limit; empty when nothing can fit. */
  predicate LongestInBytes(s: string, max: int, k: nat) {
    k <= |s| && (k == 0 || ByteLen(s[..k]) <= max) && forall j :: k < j <= |s| ==> ByteLen(s[..j]) > max
  }

  lemma BytesMonotone(s: string, i: nat, j: nat)
    requires i <= j <= |s|
    ensures ByteLen(s[..i]) <= ByteLen(s[..j])
  {
    PrefixIsCheaper(s[..i], s[..j]);
  }

  /** Keeps the longest prefix of whole runes within the limit, trimmed. */
  method TruncateUTF8Bytes(input: string, maxBytes: int) returns (r: string)
    ensures exists k: nat :: LongestInBytes(input, maxBytes, k) && r == Trim(input[..k])
    ensures maxBytes >= 0 ==> ByteLen(r) <= maxBytes
    ensures Estimate(r) <= Estimate(input)
  {
    var total, k := 0, 0;
    while k < |input|
      invariant k <= |input| && total == ByteLen(input[..k])
      invariant (k == 0 || total <= maxBytes)
    {
      assert input[..k + 1] == input[..k] + [input[k]];
      ByteLenConcat(input[..k], [input[k]]);
      assert ByteLen([input[k]]) == RuneLen(input[k]) + ByteLen("");
      var rb := RuneLen(input[k]);
      if total + rb > maxBytes {
        forall j | k < j <= |input|
          ensures ByteLen(input[..j]) > maxBytes
        {
          BytesMonotone(input, k + 1, j);
        }
        break;
      }
      total := total + rb;
      k := k + 1;
    }
    assert LongestInBytes(input, maxBytes, k);
    r := Trim(input[..k]);
    TrimIsCheaper(input[..k]);
    PrefixMonotone(input, k, |input|);
    assert input[..|input|] == input;
  }

  // ---------------------------------------------------------------- clean-up

  function Sum(ws: seq<string>): nat { if ws == [] then 0 else Estimate(ws[0]) + Sum(ws[1..]) }

  /** The estimate depends on the fields only, not on the white space between them. */
  lemma {:induction false} EstimateOfFields(s: string)
    ensures Estimate(s) == Sum(Fields(s))
    decreases |s|
  {
    if s != "" {
      if IsSpace(s[0]) {
        AlnumIsNotSpace(s[0]);
        EstimateOfFields(s[1..]);
      } else {
        var n := WordLength(s);
        WordLengthOf(s);
        EstimateOfFields(s[n..]);
        if n < |s| {
          AlnumIsNotSpace(s[n]);
          assert s == s[..n] + [s[n]] + s[n + 1..];
          EstimateAt(s[..n], s[n], s[n + 1..]);
          assert s[n..][1..] == s[n + 1..];
        } else {
          assert s[..n] == s;
        }
      }
    }
  }

  const NL: char := '\n'

  function CleanLine(line: string): string { Join(Fields(Trim(line)), ' ') }

  /** A line that comes out blank is dropped. */
  function Kept(line: string): seq<string> { if CleanLine(line) == "" then [] else [CleanLine(line)] }

  function CleanLines(lines: seq<string>): seq<string> {
    if lines == [] then [] else Kept(lines[0]) + CleanLines(lines[1..])
  }

  function Cleaned(input: string): string { Join(CleanLines(Split(input, NL)), NL) }

  lemma CleanedBlank()
    ensures Cleaned("") == ""
  {
    assert Split("", NL) == [""] && CleanLine("") == "";
    assert CleanLines([""]) == [] + CleanLines([""][1..]);
  }

  lemma CleanLineKeepsFields(line: string)
    ensures Fields(CleanLine(line)) == Fields(line)
  {
    TrimKeepsFields(line);
    FieldsAreWords(line);
    FieldsJoin(Fields(line), ' ');
  }

  /** The clean-up changes white space only: no field is lost, added, split or moved. */
  lemma {:induction false} CleanLinesKeepFields(lines: seq<string>)
    ensures Fields(Join(CleanLines(lines), NL)) == Fields(Join(lines, NL))
  {
    if lines != [] {
      var c, rest := CleanLine(lines[0]), CleanLines(lines[1..]);
      CleanLineKeepsFields(lines[0]);
      CleanLinesKeepFields(lines[1..]);
      if |lines| > 1 {
        FieldsConcat(lines[0], NL, Join(lines[1..], NL));
      }
      if c == "" {
        assert CleanLines(lines) == rest;
      } else if rest == [] {
        assert CleanLines(lines) == [c];
      } else {
        assert ([c] + rest)[1..] == rest;
        FieldsConcat(c, NL, Join(rest, NL));
      }
    }
  }

  lemma CleanedKeepsFields(input: string)
    ensures Fields(Cleaned(input)) == Fields(input) && Estimate(Cleaned(input)) == Estimate(input)
  {
    JoinSplit(input, NL);
    CleanLinesKeepFields(Split(input, NL));
    EstimateOfFields(input);
    EstimateOfFields(Cleaned(input));
  }

  lemma {:induction false} JoinHolds(ws: seq<string>, sep: char, c: char)
    requires c != sep && forall j :: 0 <= j < |ws| ==> c !in ws[j]
    ensures c !in Join(ws, sep)
  {
    if |ws| > 1 {
      JoinHolds(ws[1..], sep, c);
    }
  }

  /** A clean line is not blank, holds no newline and is its own clean-up. */
  predicate IsClean(line: string) { line != "" && NL !in line && Join(Fields(line), ' ') == line }

  lemma CleanLineIsClean(line: string)
    ensures CleanLine(line) != "" ==> IsClean(CleanLine(line))
  {
    var ws := Fields(Trim(line));
    FieldsAreWords(Trim(line));
    FieldsJoin(ws, ' ');
    forall j | 0 <= j < |ws|
      ensures NL !in ws[j]
    {
      assert IsWord(ws[j]) && IsSpace(NL);
    }
    JoinHolds(ws, ' ', NL);
  }

  lemma {:induction false} CleanLinesAreClean(lines: seq<string>)
    ensures forall j :: 0 <= j < |CleanLines(lines)| ==> IsClean(CleanLines(lines)[j])
  {
    if lines != [] {
      CleanLineIsClean(lines[0]);
      CleanLinesAreClean(lines[1..]);
    }
  }

  lemma {:induction false} CleanLinesFixed(lines: seq<string>)
    requires forall j :: 0 <= j < |lines| ==> IsClean(lines[j])
    ensures CleanLines(lines) == lines
  {
    if lines != [] {
      TrimKeepsFields(lines[0]);
      CleanLinesFixed(lines[1..]);
      assert lines == [lines[0]] + lines[1..];
    }
  }

  /** Cleaning twice is cleaning once. */
  lemma CleanedTwice(input: string)
    ensures Cleaned(Cleaned(input)) == Cleaned(input)
  {
    var lines := CleanLines(Split(input, NL));
    CleanLinesAreClean(Split(input, NL));
    if lines == [] {
      CleanedBlank();
    } else {
      SplitJoin(lines, NL);
      CleanLinesFixed(lines);
    }
  }

  lemma {:induction false} CleanLinesConcat(a: seq<string>, b: seq<string>)
    ensures CleanLines(a + b) == CleanLines(a) + CleanLines(b)
  {
    if a == [] {
      assert a + b == b;
    } else {
      assert (a + b)[0] == a[0] && (a + b)[1..] == a[1..] + b;
      CleanLinesConcat(a[1..], b);
    }
  }

  lemma {:induction false} JoinConcat(a: seq<string>, b: seq<string>, sep: char)
    requires a != [] && b != []
    ensures Join(a + b, sep) == Join(a, sep) + [sep] + Join(b, sep)
  {
    if |a| == 1 {
      assert (a + b)[1..] == b;
    } else {
      assert (a + b)[0] == a[0] && (a + b)[1..] == a[1..] + b;
      JoinConcat(a[1..], b, sep);
    }
  }

  /** Text of one line is cleaned to its fields with single blanks. */
  lemma CleanedLine(line: string)
    requires NL !in line
    ensures Cleaned(line) == Join(Fields(line), ' ')
  {
    SplitOne(line, NL);
    TrimKeepsFields(line);
    assert CleanLines([line]) == Kept(line) + CleanLines([line][1..]);
  }

  /** Text of several lines keeps its lines, each cleaned on its own, but for the blank ones. */
  lemma CleanedAt(a: string, b: string)
    ensures Cleaned(a + [NL] + b) ==
            (if Cleaned(a) == "" then Cleaned(b) else if Cleaned(b) == "" then Cleaned(a)
             else Cleaned(a) + [NL] + Cleaned(b))
  {
    var x, y := CleanLines(Split(a, NL)), CleanLines(Split(b, NL));
    SplitConcat(a, b, NL);
    CleanLinesConcat(Split(a, NL), Split(b, NL));
    CleanLinesAreClean(Split(a, NL));
    CleanLinesAreClean(Split(b, NL));
    if x == [] {
      assert x + y == y;
    } else if y == [] {
      assert x + y == x;
    } else {
      JoinConcat(x, y, NL);
      assert x[0] != "" && y[0] != "";
    }
  }

  lemma {:induction false} CleanLinesSnoc(lines: seq<string>, line: string)
    ensures CleanLines(lines + [line]) == CleanLines(lines) + Kept(line)
  {
    var all := lines + [line];
    if lines == [] {
      assert all == [line] && all[1..] == [];
    } else {
      assert all[0] == lines[0] && all[1..] == lines[1..] + [line];
      CleanLinesSnoc(lines[1..], line);
    }
  }

  /** The loop over the lines. */
  method CleanedLines(rawLines: seq<string>) returns (lines: seq<string>)
    ensures lines == CleanLines(rawLines)
  {
    lines := [];
    for i := 0 to |rawLines|
      invariant lines == CleanLines(rawLines[..i])
    {
      assert rawLines[..i + 1] == rawLines[..i] + [rawLines[i]];
      CleanLinesSnoc(rawLines[..i], rawLines[i]);
      var line := Join(Fields(Trim(rawLines[i])), ' ');
      if line != "" {
        lines := lines + [line];
      }
    }
    assert rawLines[..|rawLines|] == rawLines;
  }

  /** Never over the byte limit, never dearer than its input; the fields survive unless bytes had to go. */
  method SanitizeStructured(input: string, maxBytes: int) returns (r: string)
    ensures Estimate(r) <= Estimate(input)
    ensures maxBytes > 0 ==> ByteLen(r) <= maxBytes
    ensures maxBytes <= 0 || ByteLen(Cleaned(Trim(input))) <= maxBytes ==>
              r == Cleaned(Trim(input)) && Fields(r) == Fields(input)
    ensures maxBytes > 0 && ByteLen(Cleaned(Trim(input))) > maxBytes ==>
              exists k: nat :: LongestInBytes(Cleaned(Trim(input)), maxBytes, k) && r == Trim(Cleaned(Trim(input))[..k])
  {
    var s := Trim(input);
    TrimIsCheaper(input);
    TrimKeepsFields(input);
    CleanedKeepsFields(s);
    if s == "" {
      CleanedBlank();
      return "";
    }
    var lines := CleanedLines(Split(s, NL));
    var text := Join(lines, NL);
    if maxBytes <= 0 || ByteLen(text) <= maxBytes {
      return text;
    }
    r := TruncateUTF8Bytes(text, maxBytes);
  }

  const MAX_STRUCTURED_TOKENS := 8000

  /** The structured branch of the write-back: both budgets hold of what is stored. */
  method PrepareStructured(text: string, maxBytes: int) returns (r: string)
    ensures Estimate(r) <= MAX_STRUCTURED_TOKENS
    ensures maxBytes > 0 ==> ByteLen(r) <= maxBytes
    ensures maxBytes <= 0 && Estimate(text) <= MAX_STRUCTURED_TOKENS ==> Fields(r) == Fields(text)
  {
    var t := TruncateByEstimatedTokens(text, MAX_STRUCTURED_TOKENS);
    r := SanitizeStructured(t, maxBytes);
  }

  /** The plain branch: one line, its fields kept when they fit. */
  method SanitizeExtracted(input: string, maxBytes: int) returns (r: string)
    ensures maxBytes > 0 ==> ByteLen(r) <= maxBytes
    ensures Estimate(r) <= Estimate(input)
    ensures maxBytes <= 0 || ByteLen(CleanLine(input)) <= maxBytes ==>
              r == CleanLine(input) && Fields(r) == Fields(input)
  {
    var s := Trim(input);
    CleanLineKeepsFields(input);
    EstimateOfFields(input);
    EstimateOfFields(CleanLine(input));
    if s == "" {
      return "";
    }
    var line := Join(Fields(s), ' ');
    if maxBytes <= 0 || ByteLen(line) <= maxBytes {
      return line;
    }
    r := TruncateUTF8Bytes(line, maxBytes);
  }
}
