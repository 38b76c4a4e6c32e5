/**
 * The line diff behind the three-way merge of the Obsidian plugin
 * (obsidian-plugin/src/diff3.ts): an LCS table filled from the back and the edit script
 * read off it. Lines are compared only for equality, so the line type is a parameter.
 */
module LineDiff {

  datatype EditKind = Keep | Add | Remove
  datatype Edit<Line> = Edit(kind: EditKind, line: Line)
  datatype Match = Match(fi: nat, ti: nat)

  // ---------------------------------------------------------------- edit scripts

  /** The lines a script consumes: kept and removed ones. */
  function Source<Line>(s: seq<Edit<Line>>): seq<Line> {
    if s == [] then [] else (if s[0].kind.Add? then [] else [s[0].line]) + Source(s[1..])
  }

  /** The lines a script produces: kept and added ones. */
  function Target<Line>(s: seq<Edit<Line>>): seq<Line> {
    if s == [] then [] else (if s[0].kind.Remove? then [] else [s[0].line]) + Target(s[1..])
  }

  function Keeps<Line>(s: seq<Edit<Line>>): nat {
    if s == [] then 0 else (if s[0].kind.Keep? then 1 else 0) + Keeps(s[1..])
  }

  /** No addition is directly followed by a removal: (remove* add* keep)* remove* add*. */
  predicate RemovesFirst<Line>(s: seq<Edit<Line>>) {
    forall k {:trigger s[k]} :: 0 <= k && k + 1 < |s| && s[k].kind.Add? ==> !s[k + 1].kind.Remove?
  }

  lemma {:induction false} ScriptLength<Line>(s: seq<Edit<Line>>)
    ensures |s| + Keeps(s) == |Source(s)| + |Target(s)|
  {
    if s != [] {
      ScriptLength(s[1..]);
    }
  }

  lemma {:induction false} ConsConcat<T>(x: T, s: seq<T>, t: seq<T>)
    ensures ([x] + s) + t == [x] + (s + t)
    ensures (s + [x]) + t == s + ([x] + t)
    ensures ([x] + s)[0] == x && ([x] + s)[1..] == s
  {
  }

  lemma {:induction false} SourceConcat<Line>(s: seq<Edit<Line>>, t: seq<Edit<Line>>)
    ensures Source(s + t) == Source(s) + Source(t)
  {
    if s == [] {
      assert s + t == t;
    } else {
      assert s + t == [s[0]] + (s[1..] + t);
      ConsConcat(s[0], s[1..] + t, []);
      SourceConcat(s[1..], t);
    }
  }

  lemma {:induction false} TargetConcat<Line>(s: seq<Edit<Line>>, t: seq<Edit<Line>>)
    ensures Target(s + t) == Target(s) + Target(t)
  {
    if s == [] {
      assert s + t == t;
    } else {
      assert s + t == [s[0]] + (s[1..] + t);
      ConsConcat(s[0], s[1..] + t, []);
      TargetConcat(s[1..], t);
    }
  }

  // ---------------------------------------------------------------- longest common subsequence

  /** Pairs of equal lines, strictly increasing on both sides. */
  predicate CommonSubsequence<Line(==)>(a: seq<Line>, b: seq<Line>, p: seq<Match>) {
    && (forall k :: 0 <= k < |p| ==> p[k].fi < |a| && p[k].ti < |b| && a[p[k].fi] == b[p[k].ti])
    && (forall k, l :: 0 <= k < l < |p| ==> p[k].fi < p[l].fi && p[k].ti < p[l].ti)
  }

  function Max(x: nat, y: nat): nat { if x >= y then x else y }

  /** The recurrence that the table dp holds at (i, j). */
  function Lcs<Line(==)>(a: seq<Line>, b: seq<Line>, i: nat, j: nat): nat
    requires i <= |a| && j <= |b|
    decreases |a| - i + |b| - j
  {
    if i == |a| || j == |b| then 0
    else if a[i] == b[j] then Lcs(a, b, i + 1, j + 1) + 1
    else Max(Lcs(a, b, i + 1, j), Lcs(a, b, i, j + 1))
  }

  /** The walk over a filled table; on a tie it skips a line of `a`. */
  function Walk<Line(==)>(a: seq<Line>, b: seq<Line>, i: nat, j: nat): seq<Match>
    requires i <= |a| && j <= |b|
    decreases |a| - i + |b| - j
  {
    if i == |a| || j == |b| then []
    else if a[i] == b[j] then [Match(i, j)] + Walk(a, b, i + 1, j + 1)
    else if Lcs(a, b, i + 1, j) >= Lcs(a, b, i, j + 1) then Walk(a, b, i + 1, j)
    else Walk(a, b, i, j + 1)
  }

  /** Every match lies at or past (i, j). */
  predicate Past(p: seq<Match>, i: nat, j: nat) { forall k :: 0 <= k < |p| ==> i <= p[k].fi && j <= p[k].ti }

  lemma PrependMatch<Line>(a: seq<Line>, b: seq<Line>, i: nat, j: nat, p: seq<Match>)
    requires i < |a| && j < |b| && a[i] == b[j]
    requires CommonSubsequence(a, b, p) && Past(p, i + 1, j + 1)
    ensures CommonSubsequence(a, b, [Match(i, j)] + p) && Past([Match(i, j)] + p, i, j)
  {
  }

  lemma {:induction false} WalkIsCommon<Line>(a: seq<Line>, b: seq<Line>, i: nat, j: nat)
    requires i <= |a| && j <= |b|
    ensures CommonSubsequence(a, b, Walk(a, b, i, j)) && Past(Walk(a, b, i, j), i, j)
    ensures |Walk(a, b, i, j)| == Lcs(a, b, i, j)
    decreases |a| - i + |b| - j
  {
    if i == |a| || j == |b| {
    } else if a[i] == b[j] {
      WalkIsCommon(a, b, i + 1, j + 1);
      PrependMatch(a, b, i, j, Walk(a, b, i + 1, j + 1));
    } else if Lcs(a, b, i + 1, j) >= Lcs(a, b, i, j + 1) {
      WalkIsCommon(a, b, i + 1, j);
    } else {
      WalkIsCommon(a, b, i, j + 1);
    }
  }

  /** No common subsequence past (i, j) is longer than the table entry. */
  lemma {:induction false} LcsIsLongest<Line>(a: seq<Line>, b: seq<Line>, i: nat, j: nat, p: seq<Match>)
    requires i <= |a| && j <= |b|
    requires CommonSubsequence(a, b, p)
    requires p != [] ==> i <= p[0].fi && j <= p[0].ti
    ensures |p| <= Lcs(a, b, i, j)
    decreases |a| - i + |b| - j
  {
    if p != [] {
      if a[i] == b[j] {
        LcsIsLongest(a, b, i + 1, j + 1, p[1..]);
      } else if p[0].fi > i {
        LcsIsLongest(a, b, i + 1, j, p);
      } else {
        LcsIsLongest(a, b, i, j + 1, p);
      }
    }
  }

  /** Of the longest common subsequences the walk takes the one that reaches `b` first, match by match. */
  lemma {:induction false} WalkIsEarliest<Line>(a: seq<Line>, b: seq<Line>, i: nat, j: nat, p: seq<Match>)
    requires i <= |a| && j <= |b|
    requires CommonSubsequence(a, b, p) && Past(p, i, j)
    requires p != [] && |p| == Lcs(a, b, i, j)
    ensures Walk(a, b, i, j) != [] && Walk(a, b, i, j)[0].ti <= p[0].ti
    decreases |a| - i + |b| - j
  {
    WalkIsCommon(a, b, i, j);
    if a[i] == b[j] {
    } else if Lcs(a, b, i + 1, j) < Lcs(a, b, i, j + 1) {
      if p[0].ti == j {
        LcsIsLongest(a, b, i + 1, j, p);
      }
      WalkIsEarliest(a, b, i, j + 1, p);
    } else if p[0].fi > i {
      WalkIsEarliest(a, b, i + 1, j, p);
    } else if p[0].ti < Walk(a, b, i, j)[0].ti {
      WalkIsCommon(a, b, i + 1, j);
      PrependMatch(a, b, i, p[0].ti, Walk(a, b, i, j));
      LcsIsLongest(a, b, i, j, [p[0]] + Walk(a, b, i, j));
    }
  }

  /** Skipping one line on either side loses at most one match and gains none. */
  lemma {:induction false} LcsSkipOne<Line>(a: seq<Line>, b: seq<Line>, i: nat, j: nat)
    requires i <= |a| && j <= |b|
    ensures i < |a| ==> Lcs(a, b, i + 1, j) <= Lcs(a, b, i, j) <= Lcs(a, b, i + 1, j) + 1
    ensures j < |b| ==> Lcs(a, b, i, j + 1) <= Lcs(a, b, i, j) <= Lcs(a, b, i, j + 1) + 1
    decreases |a| - i + |b| - j
  {
    if i < |a| && j < |b| {
      LcsSkipOne(a, b, i + 1, j);
      LcsSkipOne(a, b, i, j + 1);
    }
  }

  /** dp holds the recurrence on rows row.. and, in row - 1, on columns col.. */
  ghost predicate Filled<Line>(a: seq<Line>, b: seq<Line>, dp: array2<nat>, row: nat, col: nat)
    reads dp
  {
    && dp.Length0 == |a| + 1 && dp.Length1 == |b| + 1
    && (forall p, q :: row <= p <= |a| && 0 <= q <= |b| ==> dp[p, q] == Lcs(a, b, p, q))
    && (forall p, q :: p == row - 1 && 0 <= p <= |a| && col <= q <= |b| ==> dp[p, q] == Lcs(a, b, p, q))
    && (forall p :: 0 <= p <= |a| ==> dp[p, |b|] == 0)
  }

  method LcsTable<Line(==)>(a: seq<Line>, b: seq<Line>) returns (dp: array2<nat>)
    ensures dp.Length0 == |a| + 1 && dp.Length1 == |b| + 1
    ensures forall p, q :: 0 <= p <= |a| && 0 <= q <= |b| ==> dp[p, q] == Lcs(a, b, p, q)
  {
    dp := new nat[|a| + 1, |b| + 1]((_, _) => 0);
    for i := |a| downto 0
      invariant Filled(a, b, dp, i, |b|)
    {
      for j := |b| downto 0
        invariant Filled(a, b, dp, i + 1, j)
      {
        if a[i] == b[j] {
          dp[i, j] := dp[i + 1, j + 1] + 1;
        } else {
          dp[i, j] := Max(dp[i + 1, j], dp[i, j + 1]);
        }
      }
    }
  }

  /** The forward walk over the filled table. */
  method WalkTable<Line(==)>(a: seq<Line>, b: seq<Line>, dp: array2<nat>) returns (result: seq<Match>)
    requires dp.Length0 == |a| + 1 && dp.Length1 == |b| + 1
    requires forall p, q :: 0 <= p <= |a| && 0 <= q <= |b| ==> dp[p, q] == Lcs(a, b, p, q)
    ensures result == Walk(a, b, 0, 0)
  {
    result := [];
    var i, j := 0, 0;
    while i < |a| && j < |b|
      invariant i <= |a| && j <= |b|
      invariant result + Walk(a, b, i, j) == Walk(a, b, 0, 0)
      decreases |a| - i + |b| - j
    {
      if a[i] == b[j] {
        ConsConcat(Match(i, j), result, Walk(a, b, i + 1, j + 1));
        result := result + [Match(i, j)];
        i := i + 1;
        j := j + 1;
      } else if dp[i + 1, j] >= dp[i, j + 1] {
        i := i + 1;
      } else {
        j := j + 1;
      }
    }
    assert Walk(a, b, i, j) == [];
  }

  method LongestCommonSubsequence<Line(==)>(a: seq<Line>, b: seq<Line>) returns (result: seq<Match>)
    ensures CommonSubsequence(a, b, result)
    ensures forall p :: CommonSubsequence(a, b, p) ==> |p| <= |result|
    ensures result == Walk(a, b, 0, 0)
  {
    var dp := LcsTable(a, b);
    result := WalkTable(a, b, dp);
    WalkIsCommon(a, b, 0, 0);
    forall p | CommonSubsequence(a, b, p)
      ensures |p| <= |result|
    {
      LcsIsLongest(a, b, 0, 0, p);
    }
  }

  // ---------------------------------------------------------------- the script of diffLines

  /** Matches that lie past (fi, ti) in both sequences, in order. */
  predicate Ahead<Line(==)>(from: seq<Line>, to: seq<Line>, ms: seq<Match>, fi: nat, ti: nat) {
    && CommonSubsequence(from, to, ms)
    && fi <= |from| && ti <= |to|
    && (ms != [] ==> fi <= ms[0].fi && ti <= ms[0].ti)
  }

  lemma AheadNext<Line>(from: seq<Line>, to: seq<Line>, ms: seq<Match>, fi: nat, ti: nat)
    requires Ahead(from, to, ms, fi, ti) && ms != []
    ensures Ahead(from, to, ms[1..], ms[0].fi + 1, ms[0].ti + 1)
  {
  }

  /** The edit emitted at (fi, ti) and where it leaves the cursors, until both texts are spent. */
  function Script<Line(==)>(from: seq<Line>, to: seq<Line>, ms: seq<Match>, fi: nat, ti: nat): seq<Edit<Line>>
    requires Ahead(from, to, ms, fi, ti)
    decreases |from| - fi + |to| - ti
  {
    if fi < (if ms == [] then |from| else ms[0].fi) then
      [Edit(Remove, from[fi])] + Script(from, to, ms, fi + 1, ti)
    else if ti < (if ms == [] then |to| else ms[0].ti) then
      [Edit(Add, to[ti])] + Script(from, to, ms, fi, ti + 1)
    else if ms != [] then
      AheadNext(from, to, ms, fi, ti);
      [Edit(Keep, from[fi])] + Script(from, to, ms[1..], fi + 1, ti + 1)
    else []
  }

  function Diff<Line(==)>(from: seq<Line>, to: seq<Line>): seq<Edit<Line>> {
    WalkIsCommon(from, to, 0, 0);
    Script(from, to, Walk(from, to, 0, 0), 0, 0)
  }

  /** What one more edit in front adds to either text. */
  lemma SpellOne<Line>(e: Edit<Line>, rest: seq<Edit<Line>>)
    ensures Source([e] + rest) == (if e.kind.Add? then [] else [e.line]) + Source(rest)
    ensures Target([e] + rest) == (if e.kind.Remove? then [] else [e.line]) + Target(rest)
    ensures Keeps([e] + rest) == (if e.kind.Keep? then 1 else 0) + Keeps(rest)
  {
    assert ([e] + rest)[1..] == rest;
  }

  lemma DropOne<Line>(x: seq<Line>, i: nat)
    requires i < |x|
    ensures [x[i]] + x[i + 1..] == x[i..]
  {
  }

  lemma {:induction false} ScriptSpells<Line>(from: seq<Line>, to: seq<Line>, ms: seq<Match>, fi: nat, ti: nat)
    requires Ahead(from, to, ms, fi, ti)
    ensures Source(Script(from, to, ms, fi, ti)) == from[fi..]
    ensures Target(Script(from, to, ms, fi, ti)) == to[ti..]
    ensures Keeps(Script(from, to, ms, fi, ti)) == |ms|
    decreases |from| - fi + |to| - ti
  {
    if fi < (if ms == [] then |from| else ms[0].fi) {
      ScriptSpells(from, to, ms, fi + 1, ti);
      SpellOne(Edit(Remove, from[fi]), Script(from, to, ms, fi + 1, ti));
      DropOne(from, fi);
    } else if ti < (if ms == [] then |to| else ms[0].ti) {
      ScriptSpells(from, to, ms, fi, ti + 1);
      SpellOne(Edit(Add, to[ti]), Script(from, to, ms, fi, ti + 1));
      DropOne(to, ti);
    } else if ms != [] {
      AheadNext(from, to, ms, fi, ti);
      ScriptSpells(from, to, ms[1..], fi + 1, ti + 1);
      SpellOne(Edit(Keep, from[fi]), Script(from, to, ms[1..], fi + 1, ti + 1));
      DropOne(from, fi);
      DropOne(to, ti);
    }
  }

  lemma {:induction false} ScriptShape<Line>(from: seq<Line>, to: seq<Line>, ms: seq<Match>, fi: nat, ti: nat)
    requires Ahead(from, to, ms, fi, ti)
    ensures RemovesFirst(Script(from, to, ms, fi, ti))
    ensures fi == (if ms == [] then |from| else ms[0].fi)
            ==> (Script(from, to, ms, fi, ti) == [] || !Script(from, to, ms, fi, ti)[0].kind.Remove?)
    decreases |from| - fi + |to| - ti
  {
    if fi < (if ms == [] then |from| else ms[0].fi) {
      ScriptShape(from, to, ms, fi + 1, ti);
    } else if ti < (if ms == [] then |to| else ms[0].ti) {
      ScriptShape(from, to, ms, fi, ti + 1);
    } else if ms != [] {
      AheadNext(from, to, ms, fi, ti);
      ScriptShape(from, to, ms[1..], fi + 1, ti + 1);
    }
  }

  /** Any script between the two texts keeps at most as many lines as the table says. */
  lemma {:induction false} KeepsBounded<Line>(a: seq<Line>, b: seq<Line>, i: nat, j: nat, s: seq<Edit<Line>>)
    requires i <= |a| && j <= |b|
    requires Source(s) == a[i..] && Target(s) == b[j..]
    ensures Keeps(s) <= Lcs(a, b, i, j)
    decreases |s|
  {
    if s != [] {
      LcsSkipOne(a, b, i, j);
      match s[0].kind
      case Keep =>
        assert s[0].line == a[i..][0] == b[j..][0];
        assert Source(s[1..]) == a[i..][1..] && Target(s[1..]) == b[j..][1..];
        KeepsBounded(a, b, i + 1, j + 1, s[1..]);
      case Remove =>
        assert s[0].line == a[i..][0];
        assert Source(s[1..]) == a[i..][1..];
        KeepsBounded(a, b, i + 1, j, s[1..]);
      case Add =>
        assert s[0].line == b[j..][0];
        assert Target(s[1..]) == b[j..][1..];
        KeepsBounded(a, b, i, j + 1, s[1..]);
    }
  }

  /** Any two scripts between the same texts differ in length as they differ in kept lines. */
  lemma {:induction false} DiffNoLonger<Line>(from: seq<Line>, to: seq<Line>, s: seq<Edit<Line>>)
    requires Source(s) == from && Target(s) == to
    requires Source(Diff(from, to)) == from && Target(Diff(from, to)) == to
    requires Keeps(Diff(from, to)) == Lcs(from, to, 0, 0)
    ensures |Diff(from, to)| <= |s|
  {
    assert from[0..] == from && to[0..] == to;
    KeepsBounded(from, to, 0, 0, s);
    ScriptLength(s);
    ScriptLength(Diff(from, to));
  }

  /** The script spells both texts, has the stated shape, and is a shortest script. */
  lemma DiffIsShortest<Line(!new)>(from: seq<Line>, to: seq<Line>)
    ensures Source(Diff(from, to)) == from && Target(Diff(from, to)) == to
    ensures RemovesFirst(Diff(from, to))
    ensures Keeps(Diff(from, to)) == Lcs(from, to, 0, 0)
    ensures forall s :: Source(s) == from && Target(s) == to ==> |Diff(from, to)| <= |s|
  {
    WalkIsCommon(from, to, 0, 0);
    ScriptSpells(from, to, Walk(from, to, 0, 0), 0, 0);
    ScriptShape(from, to, Walk(from, to, 0, 0), 0, 0);
    assert from[0..] == from && to[0..] == to;
    forall s | Source(s) == from && Target(s) == to
      ensures |Diff(from, to)| <= |s|
    {
      DiffNoLonger(from, to, s);
    }
  }

  /** `edits` followed by what the script still emits from (fi, ti) is the whole script. */
  ghost predicate Emitted<Line>(from: seq<Line>, to: seq<Line>, ms: seq<Match>, fi: nat, ti: nat,
                                edits: seq<Edit<Line>>)
  {
    Ahead(from, to, ms, fi, ti) && edits + Script(from, to, ms, fi, ti) == Diff(from, to)
  }

  lemma EmitNext<Line>(from: seq<Line>, to: seq<Line>, ms: seq<Match>, fi: nat, ti: nat, edits: seq<Edit<Line>>)
    requires Emitted(from, to, ms, fi, ti, edits)
    ensures fi < (if ms == [] then |from| else ms[0].fi)
            ==> Emitted(from, to, ms, fi + 1, ti, edits + [Edit(Remove, from[fi])])
    ensures fi == (if ms == [] then |from| else ms[0].fi) && ti < (if ms == [] then |to| else ms[0].ti)
            ==> Emitted(from, to, ms, fi, ti + 1, edits + [Edit(Add, to[ti])])
    ensures ms != [] && fi == ms[0].fi && ti == ms[0].ti
            ==> Emitted(from, to, ms[1..], fi + 1, ti + 1, edits + [Edit(Keep, from[fi])])
  {
    if fi < (if ms == [] then |from| else ms[0].fi) {
      ConsConcat(Edit(Remove, from[fi]), edits, Script(from, to, ms, fi + 1, ti));
    } else if ti < (if ms == [] then |to| else ms[0].ti) {
      ConsConcat(Edit(Add, to[ti]), edits, Script(from, to, ms, fi, ti + 1));
    } else if ms != [] {
      ConsConcat(Edit(Keep, from[fi]), edits, Script(from, to, ms[1..], fi + 1, ti + 1));
    }
  }

  /** The two inner loops: everything up to the next match (or the end) as removals, then additions. */
  method EmitGap<Line(==)>(from: seq<Line>, to: seq<Line>, ghost ms: seq<Match>, fi: nat, ti: nat,
                           edits: seq<Edit<Line>>, f: nat, t: nat) returns (out: seq<Edit<Line>>)
    requires Emitted(from, to, ms, fi, ti, edits)
    requires f == (if ms == [] then |from| else ms[0].fi) && t == (if ms == [] then |to| else ms[0].ti)
    ensures Emitted(from, to, ms, f, t, out)
  {
    out := edits;
    for i := fi to f
      invariant Emitted(from, to, ms, i, ti, out)
    {
      EmitNext(from, to, ms, i, ti, out);
      out := out + [Edit(Remove, from[i])];
    }
    for j := ti to t
      invariant Emitted(from, to, ms, f, j, out)
    {
      EmitNext(from, to, ms, f, j, out);
      out := out + [Edit(Add, to[j])];
    }
  }

  lemma EmitStarts<Line>(from: seq<Line>, to: seq<Line>)
    ensures Emitted(from, to, Walk(from, to, 0, 0), 0, 0, [])
  {
    WalkIsCommon(from, to, 0, 0);
  }

  lemma EmitEnds<Line>(from: seq<Line>, to: seq<Line>, edits: seq<Edit<Line>>)
    requires Emitted(from, to, [], |from|, |to|, edits)
    ensures edits == Diff(from, to)
  {
  }

  /** One round of the outer loop: the gap before a match, then the kept line. */
  method EmitMatch<Line(==)>(from: seq<Line>, to: seq<Line>, ghost ms: seq<Match>, m: Match, fi: nat, ti: nat,
                             edits: seq<Edit<Line>>) returns (out: seq<Edit<Line>>)
    requires Emitted(from, to, ms, fi, ti, edits) && ms != [] && m == ms[0]
    ensures Emitted(from, to, ms[1..], m.fi + 1, m.ti + 1, out)
  {
    out := EmitGap(from, to, ms, fi, ti, edits, m.fi, m.ti);
    EmitNext(from, to, ms, m.fi, m.ti, out);
    out := out + [Edit(Keep, from[m.fi])];
  }

  method EmitScript<Line(==)>(from: seq<Line>, to: seq<Line>, lcs: seq<Match>) returns (edits: seq<Edit<Line>>)
    requires lcs == Walk(from, to, 0, 0)
    ensures edits == Diff(from, to)
  {
    EmitStarts(from, to);
    edits := [];
    var fi: nat, ti: nat := 0, 0;
    assert lcs[0..] == lcs;
    for li := 0 to |lcs|
      invariant Emitted(from, to, lcs[li..], fi, ti, edits)
    {
      assert lcs[li..][1..] == lcs[li + 1..];
      edits := EmitMatch(from, to, lcs[li..], lcs[li], fi, ti, edits);
      fi, ti := lcs[li].fi + 1, lcs[li].ti + 1;
    }
    assert lcs[|lcs|..] == [];
    edits := EmitGap(from, to, [], fi, ti, edits, |from|, |to|);
    EmitEnds(from, to, edits);
  }

  method DiffLines<Line(==,!new)>(from: seq<Line>, to: seq<Line>) returns (edits: seq<Edit<Line>>)
    ensures edits == Diff(from, to)
    ensures Source(edits) == from && Target(edits) == to && RemovesFirst(edits)
    ensures forall s :: Source(s) == from && Target(s) == to ==> |edits| <= |s|
  {
    var lcs := LongestCommonSubsequence(from, to);
    edits := EmitScript(from, to, lcs);
    DiffIsShortest(from, to);
  }
}
