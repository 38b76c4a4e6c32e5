/**
 * The quote-aware scanners of internal/schemaspec/schemaspec.go: one finds the body of a
 * CREATE TABLE statement, the other splits that body at its top-level commas.
 */
module SchemaScan {
  import opened Options
  import opened TextOps

  datatype Quote = Bare | Single | Double | Backtick
  datatype State = State(depth: nat, quote: Quote)

  const START := State(0, Bare)

  /** A quote character opens its kind of quote, closes it, or is text inside another kind. */
  function Toggle(q: Quote, kind: Quote): Quote {
    if q == kind then Bare else if q.Bare? then kind else q
  }

  /** One unescaped character; a closing parenthesis at depth zero is ignored. */
  function Step(ch: char, st: State): State {
    if ch == '\'' then st.(quote := Toggle(st.quote, Single))
    else if ch == '"' then st.(quote := Toggle(st.quote, Double))
    else if ch == '`' then st.(quote := Toggle(st.quote, Backtick))
    else if ch == '(' && st.quote.Bare? then st.(depth := st.depth + 1)
    else if ch == ')' && st.quote.Bare? && st.depth > 0 then st.(depth := st.depth - 1)
    else st
  }

  predicate Closes(ch: char, st: State) { ch == ')' && st == START }
  predicate Separates(ch: char, st: State) { ch == ',' && st == START }

  /**
   * Reads s[i..k] strictly: None if a parenthesis closes what was not opened, if an escape is
   * cut off, or, when `whole`, if a comma separates at top level.
   */
  function Strict(s: string, i: nat, k: nat, st: State, whole: bool): Option<State>
    requires k <= |s|
    decreases k - i
  {
    if i >= k then (if i == k then Some(st) else None)
    else if s[i] == '\\' then Strict(s, i + 2, k, st, whole)
    else if Closes(s[i], st) || (whole && Separates(s[i], st)) then None
    else Strict(s, i + 1, k, Step(s[i], st), whole)
  }

  /** Parentheses match and every quote is closed. */
  predicate Balanced(s: string) { Strict(s, 0, |s|, START, false) == Some(START) }

  /** Balanced, with no top-level comma: one definition. */
  predicate OneDefinition(s: string) { Strict(s, 0, |s|, START, true) == Some(START) }

  lemma {:induction false} StrictShift(a: string, b: string, c: string, i: nat, st: State, whole: bool)
    ensures Strict(a + b + c, |a| + i, |a| + |b|, st, whole) == Strict(b, i, |b|, st, whole)
    decreases |b| - i
  {
    var s := a + b + c;
    if i < |b| {
      assert s[|a| + i] == b[i];
      if b[i] == '\\' {
        StrictShift(a, b, c, i + 2, st, whole);
      } else {
        StrictShift(a, b, c, i + 1, Step(b[i], st), whole);
      }
    }
  }

  lemma StrictSlice(s: string, lo: nat, hi: nat, st: State, whole: bool)
    requires lo <= hi <= |s|
    ensures Strict(s, lo, hi, st, whole) == Strict(s[lo..hi], 0, hi - lo, st, whole)
  {
    assert s == s[..lo] + s[lo..hi] + s[hi..];
    StrictShift(s[..lo], s[lo..hi], s[hi..], 0, st, whole);
  }

  // ---------------------------------------------------------------- the grammar the scanners read

  /** The text between two quote marks of one kind: characters and escaped characters. */
  datatype Inner = Done | Char(c: char, more: Inner) | Escaped(c: char, more: Inner)

  /** Text by its structure: plain and escaped characters, quoted text, and text in parentheses. */
  datatype Body =
    | Nil
    | Plain(c: char, rest: Body)
    | Escape(c: char, rest: Body)
    | Quoted(kind: Quote, inner: Inner, rest: Body)
    | Parens(body: Body, rest: Body)

  function Mark(kind: Quote): char {
    match kind case Single => '\'' case Double => '"' case Backtick => '`' case Bare => ' '
  }

  predicate IsMark(c: char) { c == '\'' || c == '"' || c == '`' }

  function ShowInner(i: Inner): string {
    match i
    case Done => ""
    case Char(c, more) => [c] + ShowInner(more)
    case Escaped(c, more) => ['\\', c] + ShowInner(more)
  }

  function Show(b: Body): string {
    match b
    case Nil => ""
    case Plain(c, rest) => [c] + Show(rest)
    case Escape(c, rest) => ['\\', c] + Show(rest)
    case Quoted(kind, inner, rest) => [Mark(kind)] + (ShowInner(inner) + ([Mark(kind)] + Show(rest)))
    case Parens(body, rest) => ['('] + (Show(body) + ([')'] + Show(rest)))
  }

  predicate ProperInner(i: Inner, kind: Quote) {
    match i
    case Done => true
    case Char(c, more) => c != '\\' && c != Mark(kind) && ProperInner(more, kind)
    case Escaped(_, more) => ProperInner(more, kind)
  }

  /** No plain character is one that means something: a backslash, a quote mark or a parenthesis. */
  predicate Proper(b: Body) {
    match b
    case Nil => true
    case Plain(c, rest) => c != '\\' && !IsMark(c) && c != '(' && c != ')' && Proper(rest)
    case Escape(_, rest) => Proper(rest)
    case Quoted(kind, inner, rest) => !kind.Bare? && ProperInner(inner, kind) && Proper(rest)
    case Parens(body, rest) => Proper(body) && Proper(rest)
  }

  /** A comma outside quotes and parentheses. */
  predicate TopComma(b: Body) {
    match b
    case Nil => false
    case Plain(c, rest) => c == ',' || TopComma(rest)
    case Escape(_, rest) => TopComma(rest)
    case Quoted(_, _, rest) => TopComma(rest)
    case Parens(_, rest) => TopComma(rest)
  }

  /** Reading a whole text from a state. */
  function Reads(s: string, st: State, whole: bool): Option<State> { Strict(s, 0, |s|, st, whole) }

  lemma ReadOne(c: char, s: string, st: State, whole: bool)
    requires c != '\\'
    ensures Reads([c] + s, st, whole) ==
            (if Closes(c, st) || (whole && Separates(c, st)) then None else Reads(s, Step(c, st), whole))
  {
    StrictShift([c], s, "", 0, Step(c, st), whole);
    assert [c] + s + "" == [c] + s;
  }

  lemma ReadEscape(c: char, s: string, st: State, whole: bool)
    ensures Reads(['\\', c] + s, st, whole) == Reads(s, st, whole)
  {
    StrictShift(['\\', c], s, "", 0, st, whole);
    assert ['\\', c] + s + "" == ['\\', c] + s;
  }

  lemma Assoc(a: string, b: string, c: string)
    ensures (a + b) + c == a + (b + c)
  {
  }

  /** Inside quotes nothing counts but the closing mark. */
  lemma {:induction false} ReadInner(i: Inner, kind: Quote, d: nat, tail: string, whole: bool)
    requires !kind.Bare? && ProperInner(i, kind)
    ensures Reads(ShowInner(i) + ([Mark(kind)] + tail), State(d, kind), whole) == Reads(tail, State(d, Bare), whole)
  {
    match i
    case Done =>
      assert "" + ([Mark(kind)] + tail) == [Mark(kind)] + tail;
      ReadOne(Mark(kind), tail, State(d, kind), whole);
    case Char(c, more) =>
      Assoc([c], ShowInner(more), [Mark(kind)] + tail);
      ReadOne(c, ShowInner(more) + ([Mark(kind)] + tail), State(d, kind), whole);
      ReadInner(more, kind, d, tail, whole);
    case Escaped(c, more) =>
      Assoc(['\\', c], ShowInner(more), [Mark(kind)] + tail);
      ReadEscape(c, ShowInner(more) + ([Mark(kind)] + tail), State(d, kind), whole);
      ReadInner(more, kind, d, tail, whole);
  }

  lemma ShowQuoted(kind: Quote, i: Inner, rest: Body, tail: string)
    ensures Show(Quoted(kind, i, rest)) + tail == [Mark(kind)] + (ShowInner(i) + ([Mark(kind)] + (Show(rest) + tail)))
  {
  }

  lemma ShowParens(body: Body, rest: Body, tail: string)
    ensures Show(Parens(body, rest)) + tail == ['('] + (Show(body) + ([')'] + (Show(rest) + tail)))
  {
  }

  /** Proper text leaves the scanner where it found it; strictly, only without a comma at the top. */
  lemma {:induction false} ReadBody(b: Body, d: nat, tail: string, whole: bool)
    requires Proper(b)
    ensures Reads(Show(b) + tail, State(d, Bare), whole) ==
            (if whole && d == 0 && TopComma(b) then None else Reads(tail, State(d, Bare), whole))
    decreases b
  {
    var st := State(d, Bare);
    match b
    case Nil => assert "" + tail == tail;
    case Plain(c, rest) =>
      Assoc([c], Show(rest), tail);
      ReadOne(c, Show(rest) + tail, st, whole);
      ReadBody(rest, d, tail, whole);
    case Escape(c, rest) =>
      Assoc(['\\', c], Show(rest), tail);
      ReadEscape(c, Show(rest) + tail, st, whole);
      ReadBody(rest, d, tail, whole);
    case Quoted(kind, inner, rest) =>
      ShowQuoted(kind, inner, rest, tail);
      ReadOne(Mark(kind), ShowInner(inner) + ([Mark(kind)] + (Show(rest) + tail)), st, whole);
      ReadInner(inner, kind, d, Show(rest) + tail, whole);
      ReadBody(rest, d, tail, whole);
    case Parens(body, rest) =>
      ShowParens(body, rest, tail);
      ReadOne('(', Show(body) + ([')'] + (Show(rest) + tail)), st, whole);
      ReadBody(body, d + 1, [')'] + (Show(rest) + tail), whole);
      ReadOne(')', Show(rest) + tail, State(d + 1, Bare), whole);
      ReadBody(rest, d, tail, whole);
  }

  /** Text that closes d open parentheses: a body before each of them, and one after. */
  function ShowLevels(bs: seq<Body>): string {
    if bs == [] then "" else if |bs| == 1 then Show(bs[0]) else Show(bs[0]) + ([')'] + ShowLevels(bs[1..]))
  }

  predicate AllProper(bs: seq<Body>) { forall i :: 0 <= i < |bs| ==> Proper(bs[i]) }

  lemma LevelsFront(bs: seq<Body>, b: Body, prefix: string)
    requires bs != [] && Show(b) == prefix + Show(bs[0])
    ensures ShowLevels([b] + bs[1..]) == prefix + ShowLevels(bs)
  {
    assert ([b] + bs[1..])[1..] == bs[1..];
    if |bs| > 1 {
      Assoc(prefix, Show(bs[0]), [')'] + ShowLevels(bs[1..]));
    }
  }

  lemma LevelsOpen(bs: seq<Body>)
    requires |bs| >= 2
    ensures ShowLevels([Parens(bs[0], bs[1])] + bs[2..]) == ['('] + ShowLevels(bs)
  {
    var b := Parens(bs[0], bs[1]);
    assert ([b] + bs[2..])[1..] == bs[2..] && bs[1..][0] == bs[1] && bs[1..][1..] == bs[2..];
    ShowParens(bs[0], bs[1], if |bs| == 2 then "" else [')'] + ShowLevels(bs[2..]));
    assert Show(b) + "" == Show(b) && Show(bs[1]) + "" == Show(bs[1]);
  }

  lemma LevelsQuoted(kind: Quote, i: Inner, bs: seq<Body>)
    requires bs != []
    ensures ShowLevels([Quoted(kind, i, bs[0])] + bs[1..]) ==
            [Mark(kind)] + (ShowInner(i) + ([Mark(kind)] + ShowLevels(bs)))
  {
    var b := Quoted(kind, i, bs[0]);
    assert ([b] + bs[1..])[1..] == bs[1..];
    if |bs| > 1 {
      ShowQuoted(kind, i, bs[0], [')'] + ShowLevels(bs[1..]));
    }
  }

  lemma KindOf(c: char) returns (kind: Quote)
    requires IsMark(c)
    ensures !kind.Bare? && Mark(kind) == c
  {
    kind := if c == '\'' then Single else if c == '"' then Double else Backtick;
  }

  /** Text that starts inside quotes and ends bare: quoted text, the closing mark, and the rest. */
  lemma {:induction false} SplitQuoted(s: string, kind: Quote, d: nat) returns (i: Inner, rest: string)
    requires !kind.Bare? && Reads(s, State(d, kind), false) == Some(START)
    ensures ProperInner(i, kind) && s == ShowInner(i) + ([Mark(kind)] + rest)
    ensures Reads(rest, State(d, Bare), false) == Some(START)
    decreases |s|
  {
    assert s != "";
    assert s == [s[0]] + s[1..];
    if s[0] == '\\' {
      assert |s| >= 2;
      assert s == ['\\', s[1]] + s[2..];
      ReadEscape(s[1], s[2..], State(d, kind), false);
      i, rest := SplitQuoted(s[2..], kind, d);
      Assoc(['\\', s[1]], ShowInner(i), [Mark(kind)] + rest);
      i := Escaped(s[1], i);
    } else {
      ReadOne(s[0], s[1..], State(d, kind), false);
      if s[0] == Mark(kind) {
        i, rest := Done, s[1..];
        assert s == "" + ([Mark(kind)] + rest);
      } else {
        i, rest := SplitQuoted(s[1..], kind, d);
        Assoc([s[0]], ShowInner(i), [Mark(kind)] + rest);
        i := Char(s[0], i);
      }
    }
  }

  /** What the scanner accepts from depth d is proper text that closes d parentheses. */
  lemma {:induction false} Parse(s: string, d: nat) returns (bs: seq<Body>)
    requires Reads(s, State(d, Bare), false) == Some(START)
    ensures |bs| == d + 1 && AllProper(bs) && ShowLevels(bs) == s
    decreases |s|
  {
    if s == "" {
      bs := [Nil];
    } else if s[0] == '\\' {
      assert |s| >= 2;
      assert s == ['\\', s[1]] + s[2..];
      ReadEscape(s[1], s[2..], State(d, Bare), false);
      bs := Parse(s[2..], d);
      LevelsFront(bs, Escape(s[1], bs[0]), ['\\', s[1]]);
      bs := [Escape(s[1], bs[0])] + bs[1..];
    } else {
      assert s == [s[0]] + s[1..];
      ReadOne(s[0], s[1..], State(d, Bare), false);
      bs := ParseOne(s, d);
    }
  }

  lemma {:induction false} ParseOne(s: string, d: nat) returns (bs: seq<Body>)
    requires s != "" && s[0] != '\\' && s == [s[0]] + s[1..]
    requires !Closes(s[0], State(d, Bare)) && Reads(s[1..], Step(s[0], State(d, Bare)), false) == Some(START)
    ensures |bs| == d + 1 && AllProper(bs) && ShowLevels(bs) == s
    decreases |s|, 0
  {
    if IsMark(s[0]) {
      var kind := KindOf(s[0]);
      var inner, rest := SplitQuoted(s[1..], kind, d);
      bs := Parse(rest, d);
      LevelsQuoted(kind, inner, bs);
      bs := [Quoted(kind, inner, bs[0])] + bs[1..];
    } else if s[0] == '(' {
      bs := Parse(s[1..], d + 1);
      LevelsOpen(bs);
      bs := [Parens(bs[0], bs[1])] + bs[2..];
    } else if s[0] == ')' {
      bs := Parse(s[1..], d - 1);
      assert ([Nil] + bs)[1..] == bs && "" + ([')'] + ShowLevels(bs)) == [')'] + ShowLevels(bs);
      bs := [Nil] + bs;
    } else {
      bs := Parse(s[1..], d);
      LevelsFront(bs, Plain(s[0], bs[0]), [s[0]]);
      bs := [Plain(s[0], bs[0])] + bs[1..];
    }
  }

  /** The scanner's notion of balance is the grammar's: exactly the texts that have a proper structure. */
  lemma BalancedIsProper(s: string)
    ensures Balanced(s) <==> exists b :: Proper(b) && Show(b) == s
  {
    if Balanced(s) {
      var bs := Parse(s, 0);
      assert Proper(bs[0]) && Show(bs[0]) == s;
    }
    forall b | Proper(b) && Show(b) == s
      ensures Balanced(s)
    {
      ReadBody(b, 0, "", false);
      assert Show(b) + "" == s;
    }
  }

  lemma {:induction false} WholeIsBalanced(s: string, i: nat, k: nat, st: State)
    requires k <= |s| && Strict(s, i, k, st, true).Some?
    ensures Strict(s, i, k, st, false) == Strict(s, i, k, st, true)
    decreases k - i
  {
    if i < k {
      if s[i] == '\\' {
        WholeIsBalanced(s, i + 2, k, st);
      } else {
        WholeIsBalanced(s, i + 1, k, Step(s[i], st));
      }
    }
  }

  /** One definition is proper text without a comma outside quotes and parentheses. */
  lemma OneDefinitionIsProper(s: string)
    ensures OneDefinition(s) <==> exists b :: Proper(b) && Show(b) == s && !TopComma(b)
  {
    if OneDefinition(s) {
      WholeIsBalanced(s, 0, |s|, START);
      BalancedIsProper(s);
      var b :| Proper(b) && Show(b) == s;
      ReadBody(b, 0, "", true);
      assert Show(b) + "" == s;
    }
    forall b | Proper(b) && Show(b) == s && !TopComma(b)
      ensures OneDefinition(s)
    {
      ReadBody(b, 0, "", true);
      assert Show(b) + "" == s;
    }
  }

  // ---------------------------------------------------------------- finding the body

  /** The index at which the body scan stops: the first closing parenthesis of its own level. */
  function BodyEnd(s: string, i: nat, st: State): Option<nat>
    decreases |s| - i
  {
    if i >= |s| then None
    else if s[i] == '\\' then BodyEnd(s, i + 2, st)
    else if Closes(s[i], st) then Some(i)
    else BodyEnd(s, i + 1, Step(s[i], st))
  }

  lemma {:induction false} BodyEndExact(s: string, i: nat, st: State, k: nat)
    ensures BodyEnd(s, i, st) == Some(k) <==>
            i <= k < |s| && s[k] == ')' && Strict(s, i, k, st, false) == Some(START)
    decreases |s| - i
  {
    if i < |s| {
      if s[i] == '\\' {
        BodyEndExact(s, i + 2, st, k);
      } else if !Closes(s[i], st) {
        BodyEndExact(s, i + 1, Step(s[i], st), k);
      }
    }
  }

  /** The scan succeeds with k exactly when s[start..k] is balanced and s[k] closes it. */
  lemma BodyIsBalanced(s: string, start: nat, k: nat)
    requires start <= |s|
    ensures BodyEnd(s, start, START) == Some(k) <==> start <= k < |s| && s[k] == ')' && Balanced(s[start..k])
  {
    BodyEndExact(s, start, START, k);
    if start <= k < |s| {
      StrictSlice(s, start, k, START, false);
    }
  }

  function Mode(inSingle: bool, inDouble: bool, inBacktick: bool): Quote {
    if inSingle then Single else if inDouble then Double else if inBacktick then Backtick else Bare
  }

  predicate OneQuote(inSingle: bool, inDouble: bool, inBacktick: bool) {
    !(inSingle && inDouble) && !(inSingle && inBacktick) && !(inDouble && inBacktick)
  }

  /** ParseCreateTableStatement from the character after the opening parenthesis. */
  method ScanBody(stmt: string, bodyStart: nat) returns (body: Option<string>)
    requires bodyStart <= |stmt|
    ensures body.Some? <==> exists k :: bodyStart <= k < |stmt| && stmt[k] == ')' && Balanced(stmt[bodyStart..k])
    ensures body.Some? ==> Balanced(body.value) && bodyStart + |body.value| < |stmt|
                           && stmt[bodyStart + |body.value|] == ')'
                           && stmt[bodyStart..bodyStart + |body.value|] == body.value
  {
    var i, depth := bodyStart, 1;
    var inSingle, inDouble, inBacktick := false, false, false;
    while i < |stmt|
      invariant bodyStart <= i && depth >= 1 && OneQuote(inSingle, inDouble, inBacktick)
      invariant BodyEnd(stmt, i, State(depth - 1, Mode(inSingle, inDouble, inBacktick))) ==
                BodyEnd(stmt, bodyStart, START)
      decreases |stmt| - i
    {
      var ch := stmt[i];
      if ch == '\\' {
        i := i + 2;
        continue;
      }
      if ch == '\'' {
        if !inDouble && !inBacktick { inSingle := !inSingle; }
      } else if ch == '"' {
        if !inSingle && !inBacktick { inDouble := !inDouble; }
      } else if ch == '`' {
        if !inSingle && !inDouble { inBacktick := !inBacktick; }
      } else if ch == '(' {
        if !inSingle && !inDouble && !inBacktick { depth := depth + 1; }
      } else if ch == ')' {
        if !inSingle && !inDouble && !inBacktick {
          depth := depth - 1;
          if depth == 0 {
            BodyIsBalanced(stmt, bodyStart, i);
            return Some(stmt[bodyStart..i]);
          }
        }
      }
      i := i + 1;
    }
    forall k | bodyStart <= k < |stmt| && stmt[k] == ')' && Balanced(stmt[bodyStart..k])
      ensures false
    {
      BodyIsBalanced(stmt, bodyStart, k);
    }
    return None;
  }

  // ---------------------------------------------------------------- splitting at commas

  /** The pieces between top-level commas, the last one always included. */
  function Pieces(s: string, i: nat, start: nat, st: State): (ps: seq<string>)
    requires start <= |s| && start <= i
    ensures ps != []
    decreases |s| - i
  {
    if i >= |s| then [s[start..]]
    else if s[i] == '\\' then Pieces(s, i + 2, start, st)
    else if Separates(s[i], st) then [s[start..i]] + Pieces(s, i + 1, i + 1, st)
    else Pieces(s, i + 1, start, Step(s[i], st))
  }

  /** Nothing is lost: the pieces of any text, put back together, are the text. */
  lemma {:induction false} JoinPieces(s: string, i: nat, start: nat, st: State)
    requires start <= |s| && start <= i
    ensures Join(Pieces(s, i, start, st), ',') == s[start..]
    decreases |s| - i
  {
    if i < |s| {
      if s[i] == '\\' {
        JoinPieces(s, i + 2, start, st);
      } else if Separates(s[i], st) {
        JoinPieces(s, i + 1, i + 1, st);
        var rest := Pieces(s, i + 1, i + 1, st);
        assert ([s[start..i]] + rest)[1..] == rest;
        assert s[start..] == s[start..i] + [s[i]] + s[i + 1..];
      } else {
        JoinPieces(s, i + 1, start, Step(s[i], st));
      }
    }
  }

  /** A stretch that reads strictly, without a separating comma, stays inside one piece. */
  lemma {:induction false} PieceContinues(s: string, i: nat, k: nat, start: nat, st: State, st': State)
    requires start <= i <= k <= |s| && Strict(s, i, k, st, true) == Some(st')
    ensures Pieces(s, i, start, st) == Pieces(s, k, start, st')
    decreases k - i
  {
    if i < k {
      if s[i] == '\\' {
        PieceContinues(s, i + 2, k, start, st, st');
      } else {
        PieceContinues(s, i + 1, k, start, Step(s[i], st), st');
      }
    }
  }

  predicate Definitions(ds: seq<string>) { forall j :: 0 <= j < |ds| ==> OneDefinition(ds[j]) }

  lemma JoinParts(prefix: string, d: string, rest: string)
    ensures var s, k := prefix + (d + [','] + rest), |prefix| + |d|;
            && s == prefix + d + ([','] + rest) && s == (prefix + d + [',']) + rest
            && s[k] == ',' && s[|prefix|..k] == d
  {
  }

  /** A whole definition is read up to its end without a cut. */
  lemma DefinitionStaysWhole(prefix: string, d: string, rest: string)
    requires OneDefinition(d)
    ensures Pieces(prefix + d + rest, |prefix|, |prefix|, START) ==
            Pieces(prefix + d + rest, |prefix| + |d|, |prefix|, START)
  {
    StrictShift(prefix, d, rest, 0, START, true);
    PieceContinues(prefix + d + rest, |prefix|, |prefix| + |d|, |prefix|, START, START);
  }

  /** Splitting undoes joining, for any non-empty list of single definitions after any prefix. */
  lemma {:induction false} PiecesOfJoin(prefix: string, ds: seq<string>)
    requires ds != [] && Definitions(ds)
    ensures Pieces(prefix + Join(ds, ','), |prefix|, |prefix|, START) == ds
    decreases |ds|
  {
    var d := ds[0];
    if |ds| == 1 {
      DefinitionStaysWhole(prefix, d, "");
      assert prefix + d + "" == prefix + d && (prefix + d)[|prefix|..] == d;
    } else {
      var rest := Join(ds[1..], ',');
      JoinParts(prefix, d, rest);
      DefinitionStaysWhole(prefix, d, [','] + rest);
      PiecesOfJoin(prefix + d + [','], ds[1..]);
      assert ds == [d] + ds[1..];
    }
  }

  /** On a balanced text every piece is one definition. */
  lemma {:induction false} PiecesAreDefinitions(s: string, i: nat, start: nat, st: State)
    requires start <= i <= |s|
    requires Strict(s, start, i, START, true) == Some(st) && Strict(s, i, |s|, st, false) == Some(START)
    ensures Definitions(Pieces(s, i, start, st))
    decreases |s| - i
  {
    if i == |s| {
      StrictSlice(s, start, i, START, true);
      assert s[start..|s|] == s[start..];
    } else if s[i] == '\\' {
      StrictExtend(s, start, i, START, st);
      PiecesAreDefinitions(s, i + 2, start, st);
    } else if Separates(s[i], st) {
      StrictSlice(s, start, i, START, true);
      PiecesAreDefinitions(s, i + 1, i + 1, st);
    } else {
      StrictExtend(s, start, i, START, st);
      PiecesAreDefinitions(s, i + 1, start, Step(s[i], st));
    }
  }

  /** Reading one more character at the end. */
  lemma {:induction false} StrictExtend(s: string, i: nat, k: nat, st: State, st': State)
    requires i <= k < |s| && Strict(s, i, k, st, true) == Some(st')
    ensures s[k] == '\\' && k + 2 <= |s| ==> Strict(s, i, k + 2, st, true) == Some(st')
    ensures s[k] != '\\' && !Closes(s[k], st') && !Separates(s[k], st') ==>
            Strict(s, i, k + 1, st, true) == Some(Step(s[k], st'))
    decreases k - i
  {
    if i < k {
      if s[i] == '\\' {
        StrictExtend(s, i + 2, k, st, st');
      } else {
        StrictExtend(s, i + 1, k, Step(s[i], st), st');
      }
    }
  }

  // ---------------------------------------------------------------- the splitting loop

  function TrimAll(ps: seq<string>): seq<string> { seq(|ps|, j requires 0 <= j < |ps| => Trim(ps[j])) }

  /** A last piece that is empty is not reported. */
  function Reported(ps: seq<string>): seq<string>
    requires ps != []
  {
    if ps[|ps| - 1] == "" then ps[..|ps| - 1] else ps
  }

  function SplitSpec(definitions: string): seq<string> {
    TrimAll(Reported(Pieces(definitions, 0, 0, START)))
  }

  /** Every definition reported is its piece less the white space around it. */
  lemma SplitReportsTrimmed(definitions: string, j: nat)
    requires j < |SplitSpec(definitions)|
    ensures var ps, d := Pieces(definitions, 0, 0, START), SplitSpec(definitions)[j];
            && j < |ps| && |ps| - 1 <= |SplitSpec(definitions)|
            && (d == "" || (!IsSpace(d[0]) && !IsSpace(d[|d| - 1])))
            && exists a, b :: AllSpace(a) && AllSpace(b) && ps[j] == a + d + b
  {
    TrimExact(Pieces(definitions, 0, 0, START)[j]);
  }

  predicate Trimmed(ds: seq<string>) { forall j :: 0 <= j < |ds| ==> Trim(ds[j]) == ds[j] }

  /**
   * Splitting the comma-join of single, trimmed definitions gives the list back exactly when
   * its last definition is not empty.
   */
  lemma SplitUndoesJoin(ds: seq<string>)
    requires Definitions(ds) && Trimmed(ds)
    ensures SplitSpec(Join(ds, ',')) == ds <==> ds == [] || ds[|ds| - 1] != ""
  {
    if ds != [] {
      PiecesOfJoin("", ds);
      assert "" + Join(ds, ',') == Join(ds, ',');
      var shown := Reported(ds);
      assert |TrimAll(shown)| == |shown|;
      if ds[|ds| - 1] != "" {
        assert TrimAll(ds) == ds;
      }
    }
  }

  /** The splitter's scanner, which tolerates anything, ends balanced text outside quotes at depth zero. */
  function Loose(s: string, i: nat, st: State): State
    decreases |s| - i
  {
    if i >= |s| then st
    else if s[i] == '\\' then Loose(s, i + 2, st)
    else Loose(s, i + 1, Step(s[i], st))
  }

  lemma {:induction false} ScannersAgree(s: string, i: nat, st: State)
    requires Strict(s, i, |s|, st, false).Some?
    ensures Loose(s, i, st) == Strict(s, i, |s|, st, false).value
    decreases |s| - i
  {
    if i < |s| {
      if s[i] == '\\' {
        ScannersAgree(s, i + 2, st);
      } else {
        ScannersAgree(s, i + 1, Step(s[i], st));
      }
    }
  }

  /** Any body the first scanner returns is read by the second one in step, and falls into whole definitions. */
  lemma BodySplitsCleanly(stmt: string, start: nat, k: nat)
    requires start <= |stmt| && BodyEnd(stmt, start, START) == Some(k)
    ensures start <= k < |stmt|
    ensures Loose(stmt[start..k], 0, START) == START
    ensures Definitions(Pieces(stmt[start..k], 0, 0, START))
            && Join(Pieces(stmt[start..k], 0, 0, START), ',') == stmt[start..k]
  {
    BodyIsBalanced(stmt, start, k);
    var body := stmt[start..k];
    ScannersAgree(body, 0, START);
    PiecesAreDefinitions(body, 0, 0, START);
    JoinPieces(body, 0, 0, START);
    assert body[0..] == body;
  }

  lemma TrimAllSnoc(ps: seq<string>, p: string)
    ensures TrimAll(ps + [p]) == TrimAll(ps) + [Trim(p)]
  {
  }

  ghost predicate SplitSoFar(s: string, i: nat, start: nat, st: State, raw: seq<string>) {
    start <= |s| && start <= i && raw + Pieces(s, i, start, st) == Pieces(s, 0, 0, START)
  }

  lemma SplitNext(s: string, i: nat, start: nat, st: State, raw: seq<string>)
    requires SplitSoFar(s, i, start, st, raw) && i < |s|
    ensures s[i] == '\\' ==> SplitSoFar(s, i + 2, start, st, raw)
    ensures s[i] != '\\' && Separates(s[i], st) ==> SplitSoFar(s, i + 1, i + 1, st, raw + [s[start..i]])
    ensures s[i] != '\\' && !Separates(s[i], st) ==> SplitSoFar(s, i + 1, start, Step(s[i], st), raw)
  {
  }

  lemma SplitEnds(s: string, i: nat, start: nat, st: State, raw: seq<string>)
    requires SplitSoFar(s, i, start, st, raw) && i >= |s|
    ensures Reported(Pieces(s, 0, 0, START)) == if start < |s| then raw + [s[start..]] else raw
  {
  }

  method SplitTopLevelComma(definitions: string) returns (parts: seq<string>)
    ensures parts == SplitSpec(definitions)
  {
    parts := [];
    ghost var raw: seq<string> := [];
    var i, start, depth: nat := 0, 0, 0;
    var inSingle, inDouble, inBacktick := false, false, false;
    while i < |definitions|
      invariant OneQuote(inSingle, inDouble, inBacktick) && parts == TrimAll(raw)
      invariant SplitSoFar(definitions, i, start, State(depth, Mode(inSingle, inDouble, inBacktick)), raw)
      decreases |definitions| - i
    {
      SplitNext(definitions, i, start, State(depth, Mode(inSingle, inDouble, inBacktick)), raw);
      var ch := definitions[i];
      if ch == '\\' {
        i := i + 2;
        continue;
      }
      if ch == '\'' {
        if !inDouble && !inBacktick { inSingle := !inSingle; }
      } else if ch == '"' {
        if !inSingle && !inBacktick { inDouble := !inDouble; }
      } else if ch == '`' {
        if !inSingle && !inDouble { inBacktick := !inBacktick; }
      } else if ch == '(' {
        if !inSingle && !inDouble && !inBacktick { depth := depth + 1; }
      } else if ch == ')' {
        if !inSingle && !inDouble && !inBacktick && depth > 0 { depth := depth - 1; }
      } else if ch == ',' {
        if !inSingle && !inDouble && !inBacktick && depth == 0 {
          TrimAllSnoc(raw, definitions[start..i]);
          parts := parts + [Trim(definitions[start..i])];
          raw := raw + [definitions[start..i]];
          start := i + 1;
        }
      }
      i := i + 1;
    }
    SplitEnds(definitions, i, start, State(depth, Mode(inSingle, inDouble, inBacktick)), raw);
    if start < |definitions| {
      TrimAllSnoc(raw, definitions[start..]);
      parts := parts + [Trim(definitions[start..])];
    }
  }
}
