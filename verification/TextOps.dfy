/**
 * The string operations of the standard libraries that the modelled code calls: trimming,
 * fields, splitting at a separator and joining. A string is its runes.
 */
module TextOps {

  /** unicode.IsSpace. */
  predicate IsSpace(c: char) {
    var n := c as int;
    9 <= n <= 13 || n == 0x20 || n == 0x85 || n == 0xA0 || n == 0x1680 || 0x2000 <= n <= 0x200A
    || n == 0x2028 || n == 0x2029 || n == 0x202F || n == 0x205F || n == 0x3000
  }

  // ---------------------------------------------------------------- trimming

  function TrimLeft(s: string): string { if s != "" && IsSpace(s[0]) then TrimLeft(s[1..]) else s }

  function TrimRight(s: string): string {
    if s != "" && IsSpace(s[|s| - 1]) then TrimRight(s[..|s| - 1]) else s
  }

  function Trim(s: string): string { TrimRight(TrimLeft(s)) }

  lemma {:induction false} TrimLeftIsSuffix(s: string)
    ensures |TrimLeft(s)| <= |s| && TrimLeft(s) == s[|s| - |TrimLeft(s)|..]
    ensures TrimLeft(s) == "" || !IsSpace(TrimLeft(s)[0])
  {
    if s != "" && IsSpace(s[0]) {
      TrimLeftIsSuffix(s[1..]);
    }
  }

  lemma {:induction false} TrimRightIsPrefix(s: string)
    ensures TrimRight(s) <= s
    ensures s != "" && !IsSpace(s[0]) ==> TrimRight(s) != ""
  {
    if s != "" && IsSpace(s[|s| - 1]) {
      TrimRightIsPrefix(s[..|s| - 1]);
    }
  }

  lemma BlankTrims(s: string)
    ensures Trim(s) == "" <==> TrimLeft(s) == ""
  {
    TrimLeftIsSuffix(s);
    TrimRightIsPrefix(TrimLeft(s));
  }

  predicate AllSpace(s: string) { forall i :: 0 <= i < |s| ==> IsSpace(s[i]) }

  lemma {:induction false} TrimLeftDrops(s: string) returns (a: string)
    ensures AllSpace(a) && s == a + TrimLeft(s) && (TrimLeft(s) == "" || !IsSpace(TrimLeft(s)[0]))
  {
    a := "";
    if s != "" && IsSpace(s[0]) {
      a := TrimLeftDrops(s[1..]);
      assert s == [s[0]] + s[1..];
      a := [s[0]] + a;
    }
  }

  lemma {:induction false} TrimRightDrops(s: string) returns (b: string)
    ensures AllSpace(b) && s == TrimRight(s) + b
    ensures TrimRight(s) == "" || !IsSpace(TrimRight(s)[|TrimRight(s)| - 1])
  {
    b := "";
    if s != "" && IsSpace(s[|s| - 1]) {
      var k := |s| - 1;
      b := TrimRightDrops(s[..k]);
      assert s == s[..k] + [s[k]];
      b := b + [s[k]];
    }
  }

  /** Trimming takes white space off both ends, all of it and nothing else. */
  lemma TrimExact(s: string)
    ensures exists a, b :: AllSpace(a) && AllSpace(b) && s == a + Trim(s) + b
    ensures Trim(s) != "" ==> !IsSpace(Trim(s)[0]) && !IsSpace(Trim(s)[|Trim(s)| - 1])
  {
    var a := TrimLeftDrops(s);
    var b := TrimRightDrops(TrimLeft(s));
    assert s == a + Trim(s) + b;
  }

  // ---------------------------------------------------------------- splitting and joining

  function Join(ps: seq<string>, sep: char): string {
    if ps == [] then "" else if |ps| == 1 then ps[0] else ps[0] + [sep] + Join(ps[1..], sep)
  }

  function Split(text: string, sep: char): (ls: seq<string>)
    ensures ls != []
  {
    if text == "" then [""]
    else if text[0] == sep then [""] + Split(text[1..], sep)
    else var rest := Split(text[1..], sep); [[text[0]] + rest[0]] + rest[1..]
  }

  lemma {:induction false} JoinPrepend(c: char, ls: seq<string>, sep: char)
    requires ls != []
    ensures Join([[c] + ls[0]] + ls[1..], sep) == [c] + Join(ls, sep)
  {
  }

  lemma {:induction false} JoinSplit(text: string, sep: char)
    ensures Join(Split(text, sep), sep) == text
  {
    if text != "" {
      JoinSplit(text[1..], sep);
      assert text == [text[0]] + text[1..];
      if text[0] == sep {
        assert ([""] + Split(text[1..], sep))[1..] == Split(text[1..], sep);
        assert "" + [sep] == [sep];
      } else {
        JoinPrepend(text[0], Split(text[1..], sep), sep);
      }
    }
  }

  lemma {:induction false} SplitFirst(a: string, b: string, sep: char)
    requires sep !in a
    ensures Split(a + [sep] + b, sep) == [a] + Split(b, sep)
  {
    var t := a + [sep] + b;
    if a == "" {
      assert t[0] == sep && t[1..] == b;
    } else {
      assert t[0] == a[0] && t[1..] == a[1..] + [sep] + b;
      SplitFirst(a[1..], b, sep);
      assert a == [a[0]] + a[1..];
    }
  }

  lemma {:induction false} SplitOne(a: string, sep: char)
    requires sep !in a
    ensures Split(a, sep) == [a]
  {
    if a != "" {
      SplitOne(a[1..], sep);
      assert a == [a[0]] + a[1..];
    }
  }

  /** A separator always splits. */
  lemma {:induction false} SplitConcat(a: string, b: string, sep: char)
    ensures Split(a + [sep] + b, sep) == Split(a, sep) + Split(b, sep)
  {
    var t := a + [sep] + b;
    if a == "" {
      assert t[0] == sep && t[1..] == b;
    } else {
      assert t[0] == a[0] && t[1..] == a[1..] + [sep] + b;
      SplitConcat(a[1..], b, sep);
      FrontConcat(a[0], Split(a[1..], sep), Split(b, sep));
    }
  }

  lemma FrontConcat(c: char, xs: seq<string>, ys: seq<string>)
    requires xs != []
    ensures [""] + (xs + ys) == ([""] + xs) + ys
    ensures [[c] + (xs + ys)[0]] + (xs + ys)[1..] == ([[c] + xs[0]] + xs[1..]) + ys
  {
  }

  /** Splitting undoes joining, for pieces that do not hold the separator. */
  lemma {:induction false} SplitJoin(ps: seq<string>, sep: char)
    requires ps != [] && forall j :: 0 <= j < |ps| ==> sep !in ps[j]
    ensures Split(Join(ps, sep), sep) == ps
  {
    if |ps| == 1 {
      SplitOne(ps[0], sep);
      assert ps == [ps[0]];
    } else {
      SplitJoin(ps[1..], sep);
      SplitFirst(ps[0], Join(ps[1..], sep), sep);
      assert ps == [ps[0]] + ps[1..];
    }
  }

  // ---------------------------------------------------------------- fields

  /** The length of the leading run of runes that are not white space. */
  function WordLength(s: string): (n: nat)
    ensures n <= |s|
    ensures s != "" && !IsSpace(s[0]) ==> n > 0
  {
    if s == "" || IsSpace(s[0]) then 0 else 1 + WordLength(s[1..])
  }

  /** strings.Fields: the maximal runs without white space. */
  function Fields(s: string): seq<string> {
    if s == "" then []
    else if IsSpace(s[0]) then Fields(s[1..])
    else [s[..WordLength(s)]] + Fields(s[WordLength(s)..])
  }

  predicate IsWord(w: string) { w != "" && forall i :: 0 <= i < |w| ==> !IsSpace(w[i]) }

  predicate AreWords(ws: seq<string>) { forall j :: 0 <= j < |ws| ==> IsWord(ws[j]) }

  lemma {:induction false} WordLengthOf(s: string)
    ensures forall i :: 0 <= i < WordLength(s) ==> !IsSpace(s[i])
    ensures WordLength(s) < |s| ==> IsSpace(s[WordLength(s)])
  {
    if s != "" && !IsSpace(s[0]) {
      WordLengthOf(s[1..]);
      assert forall i :: 1 <= i < |s| ==> s[i] == s[1..][i - 1];
    }
  }

  lemma {:induction false} FieldsAreWords(s: string)
    ensures AreWords(Fields(s))
  {
    if s != "" {
      if IsSpace(s[0]) {
        FieldsAreWords(s[1..]);
      } else {
        WordLengthOf(s);
        FieldsAreWords(s[WordLength(s)..]);
      }
    }
  }

  lemma {:induction false} WordLengthConcat(a: string, c: char, b: string)
    requires IsSpace(c)
    ensures WordLength(a + [c] + b) == WordLength(a)
  {
    var t := a + [c] + b;
    if a == "" {
      assert t[0] == c;
    } else if !IsSpace(a[0]) {
      assert t[0] == a[0] && t[1..] == a[1..] + [c] + b;
      WordLengthConcat(a[1..], c, b);
    } else {
      assert t[0] == a[0];
    }
  }

  /** White space always separates fields. */
  lemma {:induction false} FieldsConcat(a: string, c: char, b: string)
    requires IsSpace(c)
    ensures Fields(a + [c] + b) == Fields(a) + Fields(b)
    decreases |a|
  {
    var t := a + [c] + b;
    if a == "" {
      assert t[0] == c && t[1..] == b;
    } else if IsSpace(a[0]) {
      assert t[0] == a[0] && t[1..] == a[1..] + [c] + b;
      FieldsConcat(a[1..], c, b);
    } else {
      var n := WordLength(a);
      WordLengthConcat(a, c, b);
      assert t[0] == a[0] && t[..n] == a[..n] && t[n..] == a[n..] + [c] + b;
      FieldsConcat(a[n..], c, b);
    }
  }

  lemma {:induction false} WordIsField(w: string)
    requires IsWord(w)
    ensures Fields(w) == [w]
  {
    WordLengthOf(w);
    assert w[..|w|] == w && w[|w|..] == "";
    assert WordLength(w) == |w|;
  }

  /** Fields undoes joining words with any one white-space rune. */
  lemma {:induction false} FieldsJoin(ws: seq<string>, c: char)
    requires AreWords(ws) && IsSpace(c)
    ensures Fields(Join(ws, c)) == ws
  {
    if ws != [] {
      WordIsField(ws[0]);
      assert ws == [ws[0]] + ws[1..];
      if |ws| > 1 {
        FieldsJoin(ws[1..], c);
        FieldsConcat(ws[0], c, Join(ws[1..], c));
      }
    }
  }

  lemma {:induction false} TrimLeftKeepsFields(s: string)
    ensures Fields(TrimLeft(s)) == Fields(s)
  {
    if s != "" && IsSpace(s[0]) {
      TrimLeftKeepsFields(s[1..]);
    }
  }

  lemma {:induction false} TrimRightKeepsFields(s: string)
    ensures Fields(TrimRight(s)) == Fields(s)
  {
    if s != "" && IsSpace(s[|s| - 1]) {
      TrimRightKeepsFields(s[..|s| - 1]);
      assert s == s[..|s| - 1] + [s[|s| - 1]] + "";
      FieldsConcat(s[..|s| - 1], s[|s| - 1], "");
    }
  }

  lemma TrimKeepsFields(s: string)
    ensures Fields(Trim(s)) == Fields(s)
  {
    TrimLeftKeepsFields(s);
    TrimRightKeepsFields(TrimLeft(s));
  }
}
