/**
 * The three-way merge of obsidian-plugin/src/diff3.ts: two edit scripts over one base are
 * merged by a two-cursor loop that stops agreeing only where both sides changed something.
 */
module Merge3 {
  import opened LineDiff
  import opened TextOps

  type Text = seq<string>
  type Edits = seq<Edit<string>>

  datatype Merged = Merged(lines: Text, conflict: bool)
  datatype MergeResult = MergeResult(merged: string, hasConflicts: bool)

  const LOCAL := "<<<<<<< LOCAL"
  const SEPARATOR := "======="
  const REMOTE := ">>>>>>> REMOTE"

  // ---------------------------------------------------------------- what a script does at a base position

  /** The lines a script adds right before base line p (after the last line for p == |base|). */
  function AddsAt(s: Edits, p: nat): Text {
    if s == [] then []
    else if s[0].kind.Add? then (if p == 0 then [s[0].line] else []) + AddsAt(s[1..], p)
    else if p == 0 then []
    else AddsAt(s[1..], p - 1)
  }

  /** Whether base line p is kept; false past the end of the base. */
  predicate KeepsAt(s: Edits, p: nat) {
    if s == [] then false
    else if s[0].kind.Add? then KeepsAt(s[1..], p)
    else if p == 0 then s[0].kind.Keep?
    else KeepsAt(s[1..], p - 1)
  }

  predicate RemovesAt(s: Edits, p: nat) {
    p < |Source(s)| && !KeepsAt(s, p)
  }

  predicate Touches(s: Edits, p: nat) {
    AddsAt(s, p) != [] || RemovesAt(s, p)
  }

  /** Both sides changed the text at base position p. */
  predicate Clash(o: Edits, t: Edits, p: nat) {
    Touches(o, p) && Touches(t, p)
  }

  /** The merge read position by position: both sides' additions, then the line if both kept it. */
  function Slot(o: Edits, t: Edits, base: Text, p: nat): Text {
    AddsAt(o, p) + AddsAt(t, p) +
    (if p < |base| && KeepsAt(o, p) && KeepsAt(t, p) then [base[p]] else [])
  }

  function Slots(o: Edits, t: Edits, base: Text, p: nat): Text
    decreases |base| - p
  {
    if p > |base| then [] else Slot(o, t, base, p) + Slots(o, t, base, p + 1)
  }

  // ---------------------------------------------------------------- the two-cursor loop as a function

  /** The leading edits up to the first kept line: one side of a conflict block. */
  function Run(s: Edits): Edits {
    if s == [] || s[0].kind.Keep? then [] else [s[0]] + Run(s[1..])
  }

  function AfterRun(s: Edits): (r: Edits)
    ensures |r| <= |s| && (s != [] && !s[0].kind.Keep? ==> |r| < |s|)
  {
    if s == [] || s[0].kind.Keep? then s else AfterRun(s[1..])
  }

  function Added(s: Edits): Text {
    if s == [] then [] else (if s[0].kind.Add? then [s[0].line] else []) + Added(s[1..])
  }

  function Push(line: string, m: Merged): Merged { Merged([line] + m.lines, m.conflict) }

  function Block(o: Edits, t: Edits): Text {
    [LOCAL] + Added(Run(o)) + [SEPARATOR] + Added(Run(t)) + [REMOTE]
  }

  function MergeScripts(o: Edits, t: Edits): Merged
    decreases |o| + |t|
  {
    if o == [] && t == [] then Merged([], false)
    else if t == [] then
      if o[0].kind.Remove? then MergeScripts(o[1..], t) else Push(o[0].line, MergeScripts(o[1..], t))
    else if o == [] then
      if t[0].kind.Remove? then MergeScripts(o, t[1..]) else Push(t[0].line, MergeScripts(o, t[1..]))
    else match (o[0].kind, t[0].kind)
      case (Keep, Keep) => Push(o[0].line, MergeScripts(o[1..], t[1..]))
      case (Keep, Add) => Push(t[0].line, MergeScripts(o, t[1..]))
      case (Keep, Remove) => MergeScripts(o[1..], t[1..])
      case (Add, Keep) => Push(o[0].line, MergeScripts(o[1..], t))
      case (Remove, Keep) => MergeScripts(o[1..], t[1..])
      case _ => Merged(Block(o, t) + MergeScripts(AfterRun(o), AfterRun(t)).lines, true)
  }

  /** The cursors stand on the same base line. */
  predicate Aligned(o: Edits, t: Edits) { Source(o) == Source(t) }

  /** A step that reports no conflict keeps the cursors aligned. */
  lemma AlignedStep(o: Edits, t: Edits)
    requires Aligned(o, t)
    ensures t == [] && o != [] ==> o[0].kind.Add? && Aligned(o[1..], t)
    ensures o == [] && t != [] ==> t[0].kind.Add? && Aligned(o, t[1..])
    ensures o != [] && t != [] && !o[0].kind.Add? && !t[0].kind.Add? ==>
            Aligned(o[1..], t[1..]) && o[0].line == t[0].line
    ensures o != [] && t != [] && o[0].kind.Add? ==> Aligned(o[1..], t)
    ensures o != [] && t != [] && t[0].kind.Add? ==> Aligned(o, t[1..])
  {
    if o != [] && t != [] && !o[0].kind.Add? && !t[0].kind.Add? {
      assert Source(o)[0] == o[0].line && Source(t)[0] == t[0].line;
      assert Source(o)[1..] == Source(o[1..]) && Source(t)[1..] == Source(t[1..]);
    }
  }

  // ---------------------------------------------------------------- conflicts, exactly

  lemma TouchesShift(s: Edits, p: nat)
    requires s != []
    ensures !s[0].kind.Add? ==> Touches(s, p + 1) == Touches(s[1..], p) && AddsAt(s, p + 1) == AddsAt(s[1..], p)
                                && KeepsAt(s, p + 1) == KeepsAt(s[1..], p)
    ensures !s[0].kind.Add? ==> Touches(s, 0) == s[0].kind.Remove? && AddsAt(s, 0) == []
                                && KeepsAt(s, 0) == s[0].kind.Keep?
    ensures s[0].kind.Add? ==> Touches(s, 0) && AddsAt(s, 0) == [s[0].line] + AddsAt(s[1..], 0)
    ensures s[0].kind.Add? && p > 0 ==> Touches(s, p) == Touches(s[1..], p) && AddsAt(s, p) == AddsAt(s[1..], p)
    ensures s[0].kind.Add? ==> KeepsAt(s, p) == KeepsAt(s[1..], p)
  {
  }

  ghost predicate Clashes(o: Edits, t: Edits) { exists p: nat :: Clash(o, t, p) }

  lemma ClashesAfterBoth(o: Edits, t: Edits)
    requires o != [] && t != [] && !o[0].kind.Add? && !t[0].kind.Add?
    requires o[0].kind.Keep? || t[0].kind.Keep?
    ensures Clashes(o, t) <==> Clashes(o[1..], t[1..])
  {
    TouchesShift(o, 0);
    TouchesShift(t, 0);
    if Clashes(o, t) {
      var p: nat :| Clash(o, t, p);
      TouchesShift(o, p - 1);
      TouchesShift(t, p - 1);
      assert Clash(o[1..], t[1..], p - 1);
    }
    if Clashes(o[1..], t[1..]) {
      var p: nat :| Clash(o[1..], t[1..], p);
      TouchesShift(o, p);
      TouchesShift(t, p);
      assert Clash(o, t, p + 1);
    }
  }

  lemma ClashesSymmetric(o: Edits, t: Edits)
    ensures Clashes(o, t) <==> Clashes(t, o)
  {
    if Clashes(o, t) { var p: nat :| Clash(o, t, p); assert Clash(t, o, p); }
    if Clashes(t, o) { var p: nat :| Clash(t, o, p); assert Clash(o, t, p); }
  }

  lemma ClashesAfterAdd(o: Edits, t: Edits)
    requires o != [] && o[0].kind.Add?
    requires !Touches(t, 0)
    ensures Clashes(o, t) <==> Clashes(o[1..], t)
  {
    if Clashes(o, t) {
      var p: nat :| Clash(o, t, p);
      TouchesShift(o, p);
      assert Clash(o[1..], t, p);
    }
    if Clashes(o[1..], t) {
      var p: nat :| Clash(o[1..], t, p);
      TouchesShift(o, p);
      assert Clash(o, t, p);
    }
  }

  /** The loop reports a conflict exactly when some base position was changed by both sides. */
  lemma {:induction false} ConflictIffClash(o: Edits, t: Edits)
    requires Aligned(o, t)
    ensures MergeScripts(o, t).conflict <==> Clashes(o, t)
    decreases |o| + |t|
  {
    AlignedStep(o, t);
    if o == [] && t == [] {
      assert forall p: nat :: !Touches(o, p);
    } else if t == [] {
      assert forall p: nat :: !Touches(t, p);
      ConflictIffClash(o[1..], t);
    } else if o == [] {
      assert forall p: nat :: !Touches(o, p);
      ConflictIffClash(o, t[1..]);
    } else {
      TouchesShift(o, 0);
      TouchesShift(t, 0);
      if !o[0].kind.Keep? && !t[0].kind.Keep? {
        assert Clash(o, t, 0);
      } else if o[0].kind.Add? {
        ClashesAfterAdd(o, t);
        ConflictIffClash(o[1..], t);
      } else if t[0].kind.Add? {
        ClashesAfterAdd(t, o);
        ClashesSymmetric(o, t);
        ClashesSymmetric(o, t[1..]);
        ConflictIffClash(o, t[1..]);
      } else {
        ClashesAfterBoth(o, t);
        ConflictIffClash(o[1..], t[1..]);
      }
    }
  }

  // ---------------------------------------------------------------- the text without conflict

  lemma {:induction false} SlotsAfterBoth(o: Edits, t: Edits, base: Text, p: nat)
    requires o != [] && t != [] && base != [] && !o[0].kind.Add? && !t[0].kind.Add?
    ensures Slots(o, t, base, p + 1) == Slots(o[1..], t[1..], base[1..], p)
    decreases |base| - p
  {
    if p < |base| {
      TouchesShift(o, p);
      TouchesShift(t, p);
      SlotsAfterBoth(o, t, base, p + 1);
    }
  }

  lemma {:induction false} SlotsAfterAdd(o: Edits, t: Edits, base: Text, p: nat)
    requires o != [] && o[0].kind.Add? && p > 0
    ensures Slots(o, t, base, p) == Slots(o[1..], t, base, p)
    ensures Slots(t, o, base, p) == Slots(t, o[1..], base, p)
    decreases |base| - p
  {
    if p <= |base| {
      TouchesShift(o, p);
      SlotsAfterAdd(o, t, base, p + 1);
    }
  }

  lemma {:induction false} NoEditsNoSlots(base: Text, p: nat)
    ensures Slots([], [], base, p) == []
    decreases |base| - p
  {
    if p <= |base| {
      NoEditsNoSlots(base, p + 1);
    }
  }

  lemma ConsFirst(x: string, a: Text, b: Text, c: Text, d: Text)
    ensures ([x] + a) + b + c + d == [x] + (a + b + c + d)
    ensures [] + ([x] + a) + c + d == [x] + ([] + a + c + d)
  {
  }

  /** One added line in front: it becomes the first line of slot 0. */
  lemma SlotsPush(o: Edits, t: Edits, base: Text)
    requires o != [] && o[0].kind.Add? && AddsAt(t, 0) == []
    ensures Slots(o, t, base, 0) == [o[0].line] + Slots(o[1..], t, base, 0)
    ensures Slots(t, o, base, 0) == [o[0].line] + Slots(t, o[1..], base, 0)
  {
    TouchesShift(o, 0);
    SlotsAfterAdd(o, t, base, 1);
    var kept := if 0 < |base| && KeepsAt(o, 0) && KeepsAt(t, 0) then [base[0]] else [];
    ConsFirst(o[0].line, AddsAt(o[1..], 0), [], kept, Slots(o[1..], t, base, 1));
    ConsFirst(o[0].line, AddsAt(o[1..], 0), [], kept, Slots(t, o[1..], base, 1));
  }

  lemma SlotWithoutAdds(o: Edits, t: Edits, base: Text)
    requires AddsAt(o, 0) == [] && AddsAt(t, 0) == []
    ensures Slot(o, t, base, 0) == if 0 < |base| && KeepsAt(o, 0) && KeepsAt(t, 0) then [base[0]] else []
  {
  }

  /** Both sides act on the first base line: it is the whole of slot 0, if both keep it. */
  lemma SlotsStep(o: Edits, t: Edits, base: Text)
    requires o != [] && t != [] && base != [] && !o[0].kind.Add? && !t[0].kind.Add?
    ensures Slots(o, t, base, 0) ==
            (if o[0].kind.Keep? && t[0].kind.Keep? then [base[0]] else []) + Slots(o[1..], t[1..], base[1..], 0)
  {
    TouchesShift(o, 0);
    TouchesShift(t, 0);
    SlotWithoutAdds(o, t, base);
    SlotsAfterBoth(o, t, base, 0);
  }

  lemma NoAddsFirst(s: Edits)
    requires s == [] || !s[0].kind.Add?
    ensures AddsAt(s, 0) == []
  {
  }

  /** Without conflict the text is the slot-by-slot merge of the two scripts. */
  lemma {:induction false} CleanMergeIsSlots(o: Edits, t: Edits, base: Text)
    requires Source(o) == base && Source(t) == base
    requires !MergeScripts(o, t).conflict
    ensures MergeScripts(o, t).lines == Slots(o, t, base, 0)
    decreases |o| + |t|
  {
    AlignedStep(o, t);
    if o == [] && t == [] {
      NoEditsNoSlots(base, 0);
    } else if t == [] || (o != [] && o[0].kind.Add?) {
      NoAddsFirst(t);
      SlotsPush(o, t, base);
      CleanMergeIsSlots(o[1..], t, base);
    } else if o == [] || t[0].kind.Add? {
      NoAddsFirst(o);
      SlotsPush(t, o, base);
      CleanMergeIsSlots(o, t[1..], base);
    } else {
      assert base[0] == o[0].line && base[1..] == Source(o[1..]);
      SlotsStep(o, t, base);
      CleanMergeIsSlots(o[1..], t[1..], base[1..]);
    }
  }

  lemma SlotSwap(o: Edits, t: Edits, base: Text, p: nat)
    requires AddsAt(o, p) == [] || AddsAt(t, p) == []
    ensures Slot(o, t, base, p) == Slot(t, o, base, p)
  {
  }

  lemma {:induction false} SlotsSwap(o: Edits, t: Edits, base: Text, p: nat)
    requires !Clashes(o, t)
    ensures Slots(o, t, base, p) == Slots(t, o, base, p)
    decreases |base| - p
  {
    if p <= |base| {
      assert !Clash(o, t, p);
      SlotSwap(o, t, base, p);
      SlotsSwap(o, t, base, p + 1);
    }
  }

  /** Swapping the sides never changes the conflict flag and, without conflict, never the text. */
  lemma MergeSwap(o: Edits, t: Edits)
    requires Aligned(o, t)
    ensures MergeScripts(o, t).conflict == MergeScripts(t, o).conflict
    ensures !MergeScripts(o, t).conflict ==> MergeScripts(o, t) == MergeScripts(t, o)
  {
    ConflictIffClash(o, t);
    ConflictIffClash(t, o);
    ClashesSymmetric(o, t);
    if !MergeScripts(o, t).conflict {
      CleanMergeIsSlots(o, t, Source(o));
      CleanMergeIsSlots(t, o, Source(o));
      SlotsSwap(o, t, Source(o), 0);
    }
  }

  // ---------------------------------------------------------------- nothing added is lost

  /** xs can be read off ys in order. */
  predicate Within(xs: Text, ys: Text) {
    if xs == [] then true
    else if ys == [] then false
    else if xs[0] == ys[0] then Within(xs[1..], ys[1..])
    else Within(xs, ys[1..])
  }

  lemma {:induction false} WithinPrefix(zs: Text, xs: Text, ys: Text)
    requires Within(xs, ys)
    ensures Within(xs, zs + ys)
    decreases |xs| + |zs|, |ys|
  {
    if zs == [] {
      assert zs + ys == ys;
    } else if xs != [] {
      assert (zs + ys)[1..] == zs[1..] + ys;
      if xs[0] == zs[0] {
        WithinTail(xs, ys);
        WithinPrefix(zs[1..], xs[1..], ys);
      } else {
        WithinPrefix(zs[1..], xs, ys);
      }
    }
  }

  lemma {:induction false} WithinTail(xs: Text, ys: Text)
    requires xs != [] && Within(xs, ys)
    ensures Within(xs[1..], ys)
    decreases |xs|, |ys|
  {
    if xs[0] == ys[0] {
      if xs[1..] != [] && xs[1] == ys[0] {
        WithinTail(xs[1..], ys[1..]);
      }
    } else {
      WithinTail(xs, ys[1..]);
      if xs[1..] != [] && xs[1] == ys[0] {
        WithinTail(xs[1..], ys[1..]);
      }
    }
  }

  lemma {:induction false} WithinConcat(a: Text, b: Text, c: Text, d: Text)
    requires Within(a, c) && Within(b, d)
    ensures Within(a + b, c + d)
    decreases |c|
  {
    if a == [] {
      assert a + b == b;
      WithinPrefix(c, b, d);
    } else {
      assert (c + d)[1..] == c[1..] + d;
      assert (a + b)[1..] == a[1..] + b;
      if a[0] == c[0] {
        WithinConcat(a[1..], b, c[1..], d);
      } else {
        WithinConcat(a, b, c[1..], d);
      }
    }
  }

  lemma {:induction false} WithinSelf(a: Text)
    ensures Within(a, a)
  {
    if a != [] { WithinSelf(a[1..]); }
  }

  lemma {:induction false} RunSplits(s: Edits)
    ensures s == Run(s) + AfterRun(s)
  {
    if s != [] && !s[0].kind.Keep? {
      RunSplits(s[1..]);
      assert s == [s[0]] + s[1..];
      ConsConcat(s[0], Run(s[1..]), AfterRun(s[1..]));
    }
  }

  lemma AddedStep(s: Edits)
    requires s != []
    ensures s[0].kind.Add? ==> Added(s) == [s[0].line] + Added(s[1..])
    ensures !s[0].kind.Add? ==> Added(s) == Added(s[1..])
  {
  }

  lemma TextAssoc(a: Text, b: Text, c: Text)
    ensures (a + b) + c == a + (b + c)
  {
  }

  lemma {:induction false} AddedConcat(s: Edits, t: Edits)
    ensures Added(s + t) == Added(s) + Added(t)
  {
    if s == [] {
      assert s + t == t;
    } else {
      assert (s + t)[0] == s[0] && (s + t)[1..] == s[1..] + t;
      AddedConcat(s[1..], t);
      TextAssoc(if s[0].kind.Add? then [s[0].line] else [], Added(s[1..]), Added(t));
    }
  }

  lemma {:induction false} WithinMiddle(x: Text, a: Text, y: Text)
    ensures Within(a, x + a + y)
  {
    WithinSelf(a);
    WithinConcat(a, [], a, y);
    assert a + [] == a;
    WithinPrefix(x, a, a + y);
    assert x + a + y == x + (a + y);
  }

  lemma BlockHoldsBoth(o: Edits, t: Edits)
    ensures Within(Added(Run(o)), Block(o, t)) && Within(Added(Run(t)), Block(o, t))
  {
    var a, b := Added(Run(o)), Added(Run(t));
    WithinMiddle([LOCAL], a, [SEPARATOR] + b + [REMOTE]);
    assert Block(o, t) == [LOCAL] + a + ([SEPARATOR] + b + [REMOTE]);
    WithinMiddle([LOCAL] + a + [SEPARATOR], b, [REMOTE]);
  }

  lemma WithinPush(x: string, xs: Text, ys: Text)
    requires Within(xs, ys)
    ensures Within([x] + xs, [x] + ys) && Within(xs, [x] + ys)
  {
    assert ([x] + xs)[1..] == xs && ([x] + ys)[1..] == ys;
    WithinPrefix([x], xs, ys);
  }

  /** Conflict or not, every line either side added is in the output, in that side's order. */
  lemma {:induction false} AdditionsSurvive(o: Edits, t: Edits)
    ensures Within(Added(o), MergeScripts(o, t).lines)
    ensures Within(Added(t), MergeScripts(o, t).lines)
    decreases |o| + |t|
  {
    if o != [] { AddedStep(o); }
    if t != [] { AddedStep(t); }
    if o == [] && t == [] {
    } else if o != [] && t != [] && !o[0].kind.Keep? && !t[0].kind.Keep? {
      AdditionsSurviveBlock(o, t);
    } else if t == [] || (o != [] && o[0].kind.Add?) {
      AdditionsSurvive(o[1..], t);
      WithinPush(o[0].line, Added(o[1..]), MergeScripts(o[1..], t).lines);
      WithinPush(o[0].line, Added(t), MergeScripts(o[1..], t).lines);
    } else if o == [] || t[0].kind.Add? {
      AdditionsSurvive(o, t[1..]);
      WithinPush(t[0].line, Added(o), MergeScripts(o, t[1..]).lines);
      WithinPush(t[0].line, Added(t[1..]), MergeScripts(o, t[1..]).lines);
    } else {
      AdditionsSurvive(o[1..], t[1..]);
      WithinPush(o[0].line, Added(o[1..]), MergeScripts(o[1..], t[1..]).lines);
      WithinPush(o[0].line, Added(t[1..]), MergeScripts(o[1..], t[1..]).lines);
    }
  }

  lemma {:induction false} AdditionsSurviveBlock(o: Edits, t: Edits)
    requires o != [] && t != [] && !o[0].kind.Keep? && !t[0].kind.Keep?
    ensures Within(Added(o), MergeScripts(o, t).lines)
    ensures Within(Added(t), MergeScripts(o, t).lines)
    decreases |o| + |t|, 0
  {
    var rest := MergeScripts(AfterRun(o), AfterRun(t));
    AdditionsSurvive(AfterRun(o), AfterRun(t));
    RunSplits(o);
    RunSplits(t);
    AddedConcat(Run(o), AfterRun(o));
    AddedConcat(Run(t), AfterRun(t));
    BlockHoldsBoth(o, t);
    WithinConcat(Added(Run(o)), Added(AfterRun(o)), Block(o, t), rest.lines);
    WithinConcat(Added(Run(t)), Added(AfterRun(t)), Block(o, t), rest.lines);
  }

  // ---------------------------------------------------------------- the text of a conflict

  /** The lines a script adds at the base positions 0 to k. */
  function AddsUpTo(s: Edits, k: nat): Text {
    if k == 0 then AddsAt(s, 0) else AddsUpTo(s, k - 1) + AddsAt(s, k)
  }

  /** Base line k is the first one the script keeps, or the base ends there. */
  predicate FirstKept(s: Edits, k: nat) {
    (forall p :: 0 <= p < k ==> !KeepsAt(s, p)) && (KeepsAt(s, k) || k == |Source(s)|)
  }

  /** Edit i is the first that keeps a line, or the script ends there. */
  predicate FirstKeep(s: Edits, i: nat) {
    i <= |s| && (forall a :: 0 <= a < i ==> !s[a].kind.Keep?) && (i == |s| || s[i].kind.Keep?)
  }

  lemma {:induction false} AfterRunIs(s: Edits, i: nat)
    requires FirstKeep(s, i)
    ensures AfterRun(s) == s[i..]
  {
    if s != [] && !s[0].kind.Keep? {
      assert i > 0;
      AfterRunIs(s[1..], i - 1);
    }
  }

  lemma {:induction false} AddsUpToShift(s: Edits, k: nat)
    requires s != []
    ensures s[0].kind.Add? ==> AddsUpTo(s, k) == [s[0].line] + AddsUpTo(s[1..], k)
    ensures !s[0].kind.Add? ==> AddsUpTo(s, k + 1) == AddsUpTo(s[1..], k)
  {
    TouchesShift(s, k);
    if k > 0 {
      AddsUpToShift(s, k - 1);
      TextAssoc([s[0].line], AddsUpTo(s[1..], k - 1), AddsAt(s[1..], k));
    } else {
      assert !s[0].kind.Add? ==> AddsUpTo(s, 1) == AddsUpTo(s, 0) + AddsAt(s, 1);
    }
  }

  /** A side of a block is what the script adds up to the first base line it keeps. */
  lemma {:induction false} RunAdds(s: Edits, k: nat)
    requires FirstKept(s, k)
    ensures Added(Run(s)) == AddsUpTo(s, k)
    decreases |s|
  {
    if s == [] {
      assert k == 0;
    } else {
      TouchesShift(s, 0);
      assert forall p: nat {:trigger KeepsAt(s[1..], p)} :: !s[0].kind.Add? ==> KeepsAt(s, p + 1) == KeepsAt(s[1..], p);
      if s[0].kind.Add? {
        assert forall p: nat :: KeepsAt(s, p) == KeepsAt(s[1..], p);
        RunAdds(s[1..], k);
        AddsUpToShift(s, k);
        AddedStep([s[0]] + Run(s[1..]));
      } else if s[0].kind.Remove? {
        assert k > 0;
        RunAdds(s[1..], k - 1);
        AddsUpToShift(s, k - 1);
        AddedStep([s[0]] + Run(s[1..]));
      } else {
        assert k == 0;
      }
    }
  }

  /**
   * A conflict block: under LOCAL what ours adds up to the first base line it keeps, under
   * REMOTE what theirs adds up to the first one it keeps, then the merge from those lines on.
   */
  lemma ConflictText(o: Edits, t: Edits, k: nat, l: nat, i: nat, j: nat)
    requires InConflict(o, t) && FirstKept(o, k) && FirstKept(t, l) && FirstKeep(o, i) && FirstKeep(t, j)
    ensures MergeScripts(o, t).conflict
    ensures MergeScripts(o, t).lines ==
            [LOCAL] + AddsUpTo(o, k) + [SEPARATOR] + AddsUpTo(t, l) + [REMOTE] + MergeScripts(o[i..], t[j..]).lines
  {
    RunAdds(o, k);
    RunAdds(t, l);
    AfterRunIs(o, i);
    AfterRunIs(t, j);
  }

  /** When one script is spent, the rest of the other is taken as it stands. */
  lemma {:induction false} OneSideLeft(s: Edits)
    ensures MergeScripts(s, []) == Merged(Target(s), false) && MergeScripts([], s) == Merged(Target(s), false)
  {
    if s != [] {
      OneSideLeft(s[1..]);
    }
  }

  lemma {:induction false} NoKeepsAllAdds(s: Edits)
    requires Keeps(s) == 0
    ensures Added(Run(s)) == Target(s) && AfterRun(s) == []
  {
    if s != [] {
      NoKeepsAllAdds(s[1..]);
      AddedStep([s[0]] + Run(s[1..]));
    }
  }

  /** Two scripts that keep nothing: one block, all of ours under LOCAL and all of theirs under REMOTE. */
  lemma NothingKept(o: Edits, t: Edits)
    requires o != [] && t != [] && Keeps(o) == 0 && Keeps(t) == 0
    ensures MergeScripts(o, t) == Merged([LOCAL] + Target(o) + [SEPARATOR] + Target(t) + [REMOTE], true)
  {
    NoKeepsAllAdds(o);
    NoKeepsAllAdds(t);
  }

  /** No line of the one text is a line of the other. */
  predicate NoCommonLine(a: Text, b: Text) {
    forall i, j :: 0 <= i < |a| && 0 <= j < |b| ==> a[i] != b[j]
  }

  lemma NoCommonLineKept(a: Text, b: Text)
    requires NoCommonLine(a, b)
    ensures Keeps(Diff(a, b)) == 0 && (a != [] || b != [] ==> Diff(a, b) != [])
  {
    WalkIsCommon(a, b, 0, 0);
    DiffIsShortest(a, b);
    ScriptLength(Diff(a, b));
  }

  /**
   * Two different rewrites of a text, or two different texts where there was none: every line
   * of ours under LOCAL, every line of theirs under REMOTE.
   */
  lemma RewritesConflict(base: string, ours: string, theirs: string)
    requires ours != theirs && ours != base && theirs != base
    requires base != "" ==> NoCommonLine(SplitLines(base), SplitLines(ours))
    requires base != "" ==> NoCommonLine(SplitLines(base), SplitLines(theirs))
    ensures Merge(base, ours, theirs) ==
            MergeResult(JoinLines([LOCAL] + SplitLines(ours) + [SEPARATOR] + SplitLines(theirs) + [REMOTE]), true)
  {
    var b := SplitLines(base);
    NoCommonLineKept(b, SplitLines(ours));
    NoCommonLineKept(b, SplitLines(theirs));
    DiffIsShortest(b, SplitLines(ours));
    DiffIsShortest(b, SplitLines(theirs));
    NothingKept(Diff(b, SplitLines(ours)), Diff(b, SplitLines(theirs)));
  }

  // ---------------------------------------------------------------- after a conflict

  /** Past a conflict block the cursors agree exactly when both runs removed as many base lines. */
  lemma AlignedAfterBlock(o: Edits, t: Edits)
    requires Aligned(o, t)
    ensures Aligned(AfterRun(o), AfterRun(t)) <==> |Source(Run(o))| == |Source(Run(t))|
  {
    RunSplits(o);
    RunSplits(t);
    SourceConcat(Run(o), AfterRun(o));
    SourceConcat(Run(t), AfterRun(t));
    var k := |Source(Run(o))|;
    if k == |Source(Run(t))| {
      assert Source(o)[k..] == Source(AfterRun(o)) && Source(t)[k..] == Source(AfterRun(t));
    }
  }

  /** Both sides changed something here: the loop opens a conflict block. */
  predicate InConflict(o: Edits, t: Edits) { o != [] && t != [] && !o[0].kind.Keep? && !t[0].kind.Keep? }

  /** Where one iteration of the loop leaves the two cursors. */
  function NextCursors(o: Edits, t: Edits): (r: (Edits, Edits))
    requires o != [] || t != []
    ensures |r.0| + |r.1| < |o| + |t|
  {
    if InConflict(o, t) then (AfterRun(o), AfterRun(t)) else
      var (di, dj, _) := Step(o, t); (o[di..], t[dj..])
  }

  /** The cursors stand on the same base line at every iteration. */
  predicate AlignedThroughout(o: Edits, t: Edits)
    decreases |o| + |t|
  {
    Aligned(o, t) && (o != [] || t != [] ==> AlignedThroughout(NextCursors(o, t).0, NextCursors(o, t).1))
  }

  /** Both sides of every conflict block remove equally many base lines. */
  predicate EvenBlocks(o: Edits, t: Edits)
    decreases |o| + |t|
  {
    && (InConflict(o, t) ==> |Source(Run(o))| == |Source(Run(t))|)
    && (o != [] || t != [] ==> EvenBlocks(NextCursors(o, t).0, NextCursors(o, t).1))
  }

  /** From a common base, the cursors stay aligned through the whole loop exactly when every block is even. */
  lemma {:induction false} AlignedExactly(o: Edits, t: Edits)
    requires Aligned(o, t)
    ensures AlignedThroughout(o, t) <==> EvenBlocks(o, t)
    decreases |o| + |t|
  {
    if o != [] || t != [] {
      var n := NextCursors(o, t);
      if InConflict(o, t) {
        AlignedAfterBlock(o, t);
      } else {
        StepIsMerge(o, t);
      }
      if Aligned(n.0, n.1) {
        AlignedExactly(n.0, n.1);
      } else {
        assert !AlignedThroughout(n.0, n.1);
      }
    }
  }

  lemma DropTwo()
    ensures Diff(["a", "b", "c"], ["c"]) == [Edit(Remove, "a"), Edit(Remove, "b"), Edit(Keep, "c")]
  {
    var f, t := ["a", "b", "c"], ["c"];
    assert Lcs(f, t, 2, 0) == 1 && Lcs(f, t, 1, 0) == 1 && Lcs(f, t, 1, 1) == 0 && Lcs(f, t, 0, 1) == 0;
    assert Walk(f, t, 2, 0) == [Match(2, 0)] && Walk(f, t, 1, 0) == [Match(2, 0)] && Walk(f, t, 0, 0) == [Match(2, 0)];
    assert Script(f, t, [], 3, 1) == [];
    assert [Match(2, 0)][1..] == [];
    assert Script(f, t, [Match(2, 0)], 2, 0) == [Edit(Keep, "c")];
    assert Script(f, t, [Match(2, 0)], 1, 0) == [Edit(Remove, "b"), Edit(Keep, "c")];
  }

  lemma DropOneLine()
    ensures Diff(["a", "b", "c"], ["b", "c"]) == [Edit(Remove, "a"), Edit(Keep, "b"), Edit(Keep, "c")]
  {
    var f, t := ["a", "b", "c"], ["b", "c"];
    var ms := [Match(1, 0), Match(2, 1)];
    assert Lcs(f, t, 2, 1) == 1 && Lcs(f, t, 1, 0) == 2 && Lcs(f, t, 1, 1) == 1 && Lcs(f, t, 1, 2) == 0;
    assert Lcs(f, t, 0, 1) <= 1;
    assert Walk(f, t, 2, 1) == [Match(2, 1)] && Walk(f, t, 1, 0) == ms && Walk(f, t, 0, 0) == ms;
    assert ms[1..] == [Match(2, 1)] && [Match(2, 1)][1..] == [];
    assert Script(f, t, [], 3, 2) == [];
    assert Script(f, t, [Match(2, 1)], 2, 1) == [Edit(Keep, "c")];
    assert Script(f, t, ms, 1, 0) == [Edit(Keep, "b"), Edit(Keep, "c")];
  }

  /** One edit in front of a side: a kept line ends its run, a removal adds nothing to it. */
  lemma RunOne(e: Edit<string>, rest: Edits)
    ensures e.kind.Keep? ==> Added(Run([e] + rest)) == [] && AfterRun([e] + rest) == [e] + rest
    ensures e.kind.Remove? ==>
              Added(Run([e] + rest)) == Added(Run(rest)) && AfterRun([e] + rest) == AfterRun(rest)
  {
    assert ([e] + rest)[1..] == rest;
    if e.kind.Remove? {
      assert ([e] + Run(rest))[1..] == Run(rest);
    }
  }

  lemma KeepOne(o: Edits, t: Edits, x: string, y: string)
    ensures MergeScripts([Edit(Keep, x)] + o, [Edit(Keep, y)] + t) == Push(x, MergeScripts(o, t))
    ensures MergeScripts([], [Edit(Keep, y)] + t) == Push(y, MergeScripts([], t))
  {
    assert ([Edit(Keep, x)] + o)[1..] == o && ([Edit(Keep, y)] + t)[1..] == t;
  }

  /** Uneven removals: the loop goes on with "c" against "b", "c". */
  lemma UnevenBlock()
    ensures var o := [Edit(Remove, "a"), Edit(Remove, "b"), Edit(Keep, "c")];
            var t := [Edit(Remove, "a"), Edit(Keep, "b"), Edit(Keep, "c")];
            MergeScripts(o, t) == Merged([LOCAL, SEPARATOR, REMOTE, "c", "c"], true)
  {
    var a, b, keepB, c := Edit(Remove, "a"), Edit(Remove, "b"), Edit(Keep, "b"), Edit(Keep, "c");
    assert [a, b, c] == [a] + ([b] + ([c] + [])) && [a, keepB, c] == [a] + ([keepB] + ([c] + []));
    RunOne(c, []);
    RunOne(b, [c] + []);
    RunOne(a, [b] + ([c] + []));
    RunOne(keepB, [c] + []);
    RunOne(a, [keepB] + ([c] + []));
    KeepOne([], [], "c", "c");
    KeepOne([], [c] + [], "c", "b");
  }

  /**
   * The alignment can be lost on texts that merge3 receives: local drops two lines, remote
   * drops one, and the last line is emitted twice although every side holds it once.
   */
  lemma ConflictCanDuplicateALine()
    ensures Merge("a\nb\nc", "c", "b\nc") == MergeResult(JoinLines([LOCAL, SEPARATOR, REMOTE, "c", "c"]), true)
  {
    var base, theirs := ["a", "b", "c"], ["b", "c"];
    assert base[1..] == theirs && theirs[1..] == ["c"];
    assert Join(theirs, NL) == "b\nc" && Join(base, NL) == "a\nb\nc";
    SplitJoin(base, NL);
    SplitJoin(theirs, NL);
    SplitJoin(["c"], NL);
    DropTwo();
    DropOneLine();
    UnevenBlock();
  }

  // ---------------------------------------------------------------- shortcuts

  predicate AllKeep(s: Edits) { forall e :: e in s ==> e.kind.Keep? }

  function KeepAll(base: Text): Edits {
    if base == [] then [] else [Edit(Keep, base[0])] + KeepAll(base[1..])
  }

  lemma {:induction false} KeepAllSpells(base: Text)
    ensures Source(KeepAll(base)) == base && Target(KeepAll(base)) == base && |KeepAll(base)| == |base|
  {
    if base != [] {
      KeepAllSpells(base[1..]);
      assert KeepAll(base)[1..] == KeepAll(base[1..]);
    }
  }

  lemma {:induction false} OnlyKeeps(s: Edits)
    ensures Keeps(s) <= |s| && (Keeps(s) == |s| ==> AllKeep(s))
  {
    if s != [] {
      OnlyKeeps(s[1..]);
      assert s == [s[0]] + s[1..];
    }
  }

  /** A text diffed against itself is kept line by line: no shorter script exists. */
  lemma DiffSelfKeeps(base: Text)
    ensures AllKeep(Diff(base, base))
  {
    DiffIsShortest(base, base);
    KeepAllSpells(base);
    ScriptLength(Diff(base, base));
    OnlyKeeps(Diff(base, base));
  }

  /** One side unchanged: the merge is the other side's text. */
  lemma {:induction false} MergeUnchanged(o: Edits, t: Edits)
    requires Aligned(o, t) && AllKeep(o)
    ensures MergeScripts(o, t) == Merged(Target(t), false)
    decreases |o| + |t|
  {
    AlignedStep(o, t);
    if t != [] {
      if t[0].kind.Add? {
        MergeUnchanged(o, t[1..]);
      } else {
        MergeUnchanged(o[1..], t[1..]);
      }
    }
  }

  /** Identical sides, put through the loop, conflict exactly when they changed anything. */
  lemma {:induction false} MergeWithSelf(s: Edits)
    ensures MergeScripts(s, s).conflict <==> !AllKeep(s)
  {
    if s != [] && s[0].kind.Keep? {
      MergeWithSelf(s[1..]);
      assert s == [s[0]] + s[1..];
    }
  }

  // ---------------------------------------------------------------- lines and text

  const NL: char := '\n'

  function SplitLines(text: string): Text { if text == "" then [] else Split(text, NL) }

  function JoinLines(ls: Text): string { Join(ls, NL) }

  /** Splitting and joining gives every text back, the empty one included. */
  lemma JoinSplitLines(text: string)
    ensures JoinLines(SplitLines(text)) == text
  {
    JoinSplit(text, NL);
  }

  // ---------------------------------------------------------------- merge3

  /** The general path of merge3, without its three shortcuts. */
  function GeneralMerge(base: string, ours: string, theirs: string): MergeResult {
    var m := MergeScripts(Diff(SplitLines(base), SplitLines(ours)), Diff(SplitLines(base), SplitLines(theirs)));
    MergeResult(JoinLines(m.lines), m.conflict)
  }

  function Merge(base: string, ours: string, theirs: string): MergeResult {
    if ours == theirs then MergeResult(ours, false)
    else if ours == base then MergeResult(theirs, false)
    else if theirs == base then MergeResult(ours, false)
    else GeneralMerge(base, ours, theirs)
  }

  /** The shortcuts for an unchanged side return what the general path computes. */
  lemma ShortcutsAgree(base: string, other: string)
    ensures GeneralMerge(base, base, other) == MergeResult(other, false)
    ensures GeneralMerge(base, other, base) == MergeResult(other, false)
  {
    var b, x := SplitLines(base), SplitLines(other);
    DiffIsShortest(b, b);
    DiffIsShortest(b, x);
    DiffSelfKeeps(b);
    MergeUnchanged(Diff(b, b), Diff(b, x));
    MergeSwap(Diff(b, b), Diff(b, x));
    JoinSplitLines(other);
  }

  /** The shortcut for two equal sides is no optimisation: the general path would conflict. */
  lemma EqualSidesShortcutNeeded(base: string, ours: string)
    ensures GeneralMerge(base, ours, ours).hasConflicts <==> ours != base
  {
    var b, x := SplitLines(base), SplitLines(ours);
    DiffIsShortest(b, x);
    MergeWithSelf(Diff(b, x));
    if ours == base {
      DiffSelfKeeps(b);
    } else if AllKeep(Diff(b, x)) {
      AllKeepSame(Diff(b, x));
      JoinSplitLines(base);
      JoinSplitLines(ours);
    }
  }

  lemma {:induction false} AllKeepSame(s: Edits)
    requires AllKeep(s)
    ensures Source(s) == Target(s)
  {
    if s != [] {
      AllKeepSame(s[1..]);
    }
  }

  /** merge3 is symmetric in its two sides. */
  lemma MergeSymmetric(base: string, ours: string, theirs: string)
    ensures Merge(base, ours, theirs).hasConflicts == Merge(base, theirs, ours).hasConflicts
    ensures !Merge(base, ours, theirs).hasConflicts ==> Merge(base, ours, theirs) == Merge(base, theirs, ours)
  {
    var b := SplitLines(base);
    DiffIsShortest(b, SplitLines(ours));
    DiffIsShortest(b, SplitLines(theirs));
    MergeSwap(Diff(b, SplitLines(ours)), Diff(b, SplitLines(theirs)));
  }

  /** What the caller gets from merge3, in terms of the two diffs against the base. */
  lemma MergeMeaning(base: string, ours: string, theirs: string)
    ensures ours == theirs ==> Merge(base, ours, theirs) == MergeResult(ours, false)
    ensures ours != theirs ==>
              var b := SplitLines(base);
              var o, t := Diff(b, SplitLines(ours)), Diff(b, SplitLines(theirs));
              && (Merge(base, ours, theirs).hasConflicts <==> Clashes(o, t))
              && (!Clashes(o, t) ==> Merge(base, ours, theirs).merged == JoinLines(Slots(o, t, b, 0)))
  {
    var b := SplitLines(base);
    var o, t := Diff(b, SplitLines(ours)), Diff(b, SplitLines(theirs));
    DiffIsShortest(b, SplitLines(ours));
    DiffIsShortest(b, SplitLines(theirs));
    ConflictIffClash(o, t);
    if !Clashes(o, t) {
      CleanMergeIsSlots(o, t, b);
    }
    if ours == base {
      ShortcutsAgree(base, theirs);
    } else if theirs == base {
      ShortcutsAgree(base, ours);
    }
  }

  // ---------------------------------------------------------------- the loops

  /** One inner loop of a conflict block: push the additions up to the next kept line. */
  method PushRun(result: Text, s: Edits, idx: nat) returns (out: Text, next: nat)
    requires idx <= |s|
    ensures idx <= next <= |s| && s[next..] == AfterRun(s[idx..])
    ensures out == result + Added(Run(s[idx..]))
  {
    out, next := result, idx;
    while next < |s| && !s[next].kind.Keep?
      invariant idx <= next <= |s|
      invariant AfterRun(s[next..]) == AfterRun(s[idx..])
      invariant out + Added(Run(s[next..])) == result + Added(Run(s[idx..]))
    {
      assert s[next..][1..] == s[next + 1..];
      assert Run(s[next..])[1..] == Run(s[next + 1..]);
      AddedStep(Run(s[next..]));
      if s[next].kind.Add? {
        ConsConcat(s[next].line, out, Added(Run(s[next + 1..])));
        out := out + [s[next].line];
      }
      next := next + 1;
    }
  }

  /** `result` and the flag so far, followed by the merge of what is left, are the whole merge. */
  ghost predicate Progress(o: Edits, t: Edits, i: nat, j: nat, result: Text, conflict: bool) {
    && i <= |o| && j <= |t|
    && result + MergeScripts(o[i..], t[j..]).lines == MergeScripts(o, t).lines
    && (conflict || MergeScripts(o[i..], t[j..]).conflict) == MergeScripts(o, t).conflict
    && (Aligned(o, t) && !conflict ==> Aligned(o[i..], t[j..]))
  }

  /** Moving the cursors by di and dj and emitting `out` leaves the rest of the merge to do. */
  ghost predicate Advances(o: Edits, t: Edits, di: nat, dj: nat, out: Text) {
    && di <= |o| && dj <= |t|
    && MergeScripts(o, t).lines == out + MergeScripts(o[di..], t[dj..]).lines
    && MergeScripts(o, t).conflict == MergeScripts(o[di..], t[dj..]).conflict
    && (Aligned(o, t) ==> Aligned(o[di..], t[dj..]))
  }

  lemma ProgressStep(o: Edits, t: Edits, i: nat, j: nat, result: Text, conflict: bool, di: nat, dj: nat, out: Text)
    requires Progress(o, t, i, j, result, conflict) && Advances(o[i..], t[j..], di, dj, out)
    ensures Progress(o, t, i + di, j + dj, result + out, conflict)
  {
    assert o[i..][di..] == o[i + di..] && t[j..][dj..] == t[j + dj..];
    TextAssoc(result, out, MergeScripts(o[i + di..], t[j + dj..]).lines);
  }

  lemma ProgressBlock(o: Edits, t: Edits, i: nat, j: nat, result: Text, conflict: bool, i': nat, j': nat)
    requires Progress(o, t, i, j, result, conflict) && i < |o| && j < |t| && i' <= |o| && j' <= |t|
    requires !o[i].kind.Keep? && !t[j].kind.Keep?
    requires o[i'..] == AfterRun(o[i..]) && t[j'..] == AfterRun(t[j..])
    ensures Progress(o, t, i', j', result + Block(o[i..], t[j..]), true)
  {
  }

  /** The step the loop takes at (i, j) outside a conflict, as (di, dj, emitted lines). */
  function Step(o: Edits, t: Edits): (nat, nat, Text)
    requires o != [] || t != []
    requires o != [] && t != [] ==> o[0].kind.Keep? || t[0].kind.Keep?
  {
    if t == [] then (1, 0, if o[0].kind.Remove? then [] else [o[0].line])
    else if o == [] then (0, 1, if t[0].kind.Remove? then [] else [t[0].line])
    else match (o[0].kind, t[0].kind)
      case (Keep, Keep) => (1, 1, [o[0].line])
      case (_, Add) => (0, 1, [t[0].line])
      case (Add, _) => (1, 0, [o[0].line])
      case _ => (1, 1, [])
  }

  lemma StepIsMerge(o: Edits, t: Edits)
    requires o != [] || t != []
    requires o != [] && t != [] ==> o[0].kind.Keep? || t[0].kind.Keep?
    ensures var (di, dj, out) := Step(o, t); Advances(o, t, di, dj, out)
  {
    assert o[0..] == o && t[0..] == t;
    if Aligned(o, t) { AlignedStep(o, t); }
  }

  lemma ProgressEnds(o: Edits, t: Edits, i: nat, j: nat, result: Text, conflict: bool)
    ensures Progress(o, t, 0, 0, [], false)
    ensures Progress(o, t, i, j, result, conflict) && i == |o| && j == |t|
            ==> Merged(result, conflict) == MergeScripts(o, t)
  {
  }

  /** The branches of the loop outside a conflict: how far the cursors go and what is pushed. */
  method Branch(o: Edits, t: Edits, oIdx: nat, tIdx: nat) returns (di: nat, dj: nat, pushed: Text)
    requires oIdx <= |o| && tIdx <= |t| && (oIdx < |o| || tIdx < |t|)
    requires oIdx < |o| && tIdx < |t| ==> o[oIdx].kind.Keep? || t[tIdx].kind.Keep?
    ensures Advances(o[oIdx..], t[tIdx..], di, dj, pushed) && di + dj > 0
  {
    StepIsMerge(o[oIdx..], t[tIdx..]);
    di, dj, pushed := 0, 0, [];
    if oIdx < |o| && tIdx < |t| {
      var oEdit, tEdit := o[oIdx], t[tIdx];
      if oEdit.kind.Keep? && tEdit.kind.Keep? {
        pushed := [oEdit.line];
        di, dj := 1, 1;
      } else if tEdit.kind.Add? {
        pushed := [tEdit.line];
        dj := 1;
      } else if oEdit.kind.Add? {
        pushed := [oEdit.line];
        di := 1;
      } else {
        di, dj := 1, 1;
      }
    } else if oIdx < |o| {
      if !o[oIdx].kind.Remove? {
        pushed := [o[oIdx].line];
      }
      di := 1;
    } else {
      if !t[tIdx].kind.Remove? {
        pushed := [t[tIdx].line];
      }
      dj := 1;
    }
  }

  method PlainStep(o: Edits, t: Edits, oIdx: nat, tIdx: nat, result: Text, ghost conflict: bool)
      returns (i: nat, j: nat, out: Text)
    requires Progress(o, t, oIdx, tIdx, result, conflict) && (oIdx < |o| || tIdx < |t|)
    requires oIdx < |o| && tIdx < |t| ==> o[oIdx].kind.Keep? || t[tIdx].kind.Keep?
    ensures Progress(o, t, i, j, out, conflict) && i + j > oIdx + tIdx
  {
    var di, dj, pushed := Branch(o, t, oIdx, tIdx);
    ProgressStep(o, t, oIdx, tIdx, result, conflict, di, dj, pushed);
    i, j, out := oIdx + di, tIdx + dj, result + pushed;
  }

  method PushBlock(o: Edits, t: Edits, oIdx: nat, tIdx: nat, result: Text) returns (i: nat, j: nat, out: Text)
    requires oIdx < |o| && tIdx < |t| && !o[oIdx].kind.Keep? && !t[tIdx].kind.Keep?
    ensures oIdx < i <= |o| && tIdx < j <= |t|
    ensures o[i..] == AfterRun(o[oIdx..]) && t[j..] == AfterRun(t[tIdx..])
    ensures out == result + Block(o[oIdx..], t[tIdx..])
  {
    out := result + [LOCAL];
    out, i := PushRun(out, o, oIdx);
    out := out + [SEPARATOR];
    out, j := PushRun(out, t, tIdx);
    out := out + [REMOTE];
    assert |o[i..]| < |o[oIdx..]| && |t[j..]| < |t[tIdx..]|;
    assert out == result + Block(o[oIdx..], t[tIdx..]);
  }

  method ConflictStep(o: Edits, t: Edits, oIdx: nat, tIdx: nat, result: Text, ghost conflict: bool)
      returns (i: nat, j: nat, out: Text)
    requires Progress(o, t, oIdx, tIdx, result, conflict)
    requires oIdx < |o| && tIdx < |t| && !o[oIdx].kind.Keep? && !t[tIdx].kind.Keep?
    ensures Progress(o, t, i, j, out, true) && i + j > oIdx + tIdx
  {
    i, j, out := PushBlock(o, t, oIdx, tIdx, result);
    ProgressBlock(o, t, oIdx, tIdx, result, conflict, i, j);
  }

  method MergeEdits(o: Edits, t: Edits) returns (result: Text, hasConflicts: bool)
    ensures Merged(result, hasConflicts) == MergeScripts(o, t)
  {
    result, hasConflicts := [], false;
    var oIdx: nat, tIdx: nat := 0, 0;
    ProgressEnds(o, t, oIdx, tIdx, result, hasConflicts);
    while oIdx < |o| || tIdx < |t|
      invariant Progress(o, t, oIdx, tIdx, result, hasConflicts)
      decreases |o| - oIdx + |t| - tIdx
    {
      if oIdx < |o| && tIdx < |t| && !o[oIdx].kind.Keep? && !t[tIdx].kind.Keep? {
        oIdx, tIdx, result := ConflictStep(o, t, oIdx, tIdx, result, hasConflicts);
        hasConflicts := true;
      } else {
        oIdx, tIdx, result := PlainStep(o, t, oIdx, tIdx, result, hasConflicts);
      }
    }
    ProgressEnds(o, t, oIdx, tIdx, result, hasConflicts);
  }

  method MergeTexts(base: string, ours: string, theirs: string) returns (r: MergeResult)
    ensures r == Merge(base, ours, theirs)
  {
    if ours == theirs {
      return MergeResult(ours, false);
    }
    if ours == base {
      return MergeResult(theirs, false);
    }
    if theirs == base {
      return MergeResult(ours, false);
    }
    var baseLines := SplitLines(base);
    var oursEdits := DiffLines(baseLines, SplitLines(ours));
    var theirsEdits := DiffLines(baseLines, SplitLines(theirs));
    var result, hasConflicts := MergeEdits(oursEdits, theirsEdits);
    r := MergeResult(JoinLines(result), hasConflicts);
  }
}
