/** The adaptive bitrate controller: a ladder of video layers that is tightened when packets are lost or
    bandwidth runs out, and loosened when there is room. */
module Abr {
  import opened Wrappers

  datatype Spec = Spec(rid: string, initial: nat, floor: nat, ceiling: nat)

  datatype Layer = Layer(rid: string, target: nat, active: bool)

  datatype Options = Options(specs: seq<Spec>, decreaseFactor: real, increaseStep: nat, highLossPct: real,
                             lowLossPct: real)

  datatype Change = Up | Down | Unchanged

  type Ladder = seq<Layer>

  /** What an options object must be for the ladder to make sense. */
  ghost predicate Sound(o: Options) {
    && o.decreaseFactor < 1.0 && o.increaseStep > 0
    && (forall i :: 0 <= i < |o.specs| ==> o.specs[i].floor <= o.specs[i].initial <= o.specs[i].ceiling)
    && DistinctRids(o)
  }

  ghost predicate DistinctRids(o: Options) {
    forall i, j :: 0 <= i < j < |o.specs| ==> o.specs[i].rid != o.specs[j].rid
  }

  /** Position of the first layer specification with this rid. */
  function Find(specs: seq<Spec>, rid: string): (i: nat)
    ensures i <= |specs|
    ensures i < |specs| ==> specs[i].rid == rid
    ensures forall j :: 0 <= j < i ==> specs[j].rid != rid
  {
    if specs == [] || specs[0].rid == rid then 0 else 1 + Find(specs[1..], rid)
  }

  /** Every layer is named in the options. */
  predicate Listed(o: Options, s: Ladder) {
    forall i :: 0 <= i < |s| ==> Find(o.specs, s[i].rid) < |o.specs|
  }

  function SpecOf(o: Options, l: Layer): Spec
    requires Find(o.specs, l.rid) < |o.specs|
  {
    o.specs[Find(o.specs, l.rid)]
  }

  /** What every run keeps: targets within bounds, the active layers a nonempty prefix, and every
      inactive layer at its floor. */
  ghost predicate Rungs(o: Options, s: Ladder) {
    && |s| == |o.specs|
    && (forall i :: 0 <= i < |s| ==> s[i].rid == o.specs[i].rid)
    && (forall i :: 0 <= i < |s| ==> o.specs[i].floor <= s[i].target <= o.specs[i].ceiling)
    && (forall i :: 0 <= i < |s| && !s[i].active ==> s[i].target == o.specs[i].floor)
    && (forall i, j :: 0 <= i < j < |s| && s[j].active ==> s[i].active)
    && (|s| > 0 ==> s[0].active)
  }

  // ---------- the two moves ----------

  /** The highest active layer, or -1. */
  function Top(s: Ladder): (i: int)
    ensures -1 <= i < |s| && (i >= 0 ==> s[i].active)
    ensures forall j :: i < j < |s| ==> !s[j].active
  {
    if s == [] then -1 else if s[|s| - 1].active then |s| - 1 else Top(s[..|s| - 1])
  }

  function Cut(spec: Spec, target: nat, factor: real): nat {
    var next := (target as real * factor).Floor;
    if next > spec.floor then next else spec.floor
  }

  function Raised(spec: Spec, target: nat, step: nat): nat {
    if target + step < spec.ceiling then target + step else spec.ceiling
  }

  function Tightened(o: Options, s: Ladder): (Ladder, Change)
    requires Listed(o, s)
  {
    var i := Top(s);
    if i < 0 then (s, Unchanged)
    else
      var next := Cut(SpecOf(o, s[i]), s[i].target, o.decreaseFactor);
      if next < s[i].target then (s[i := s[i].(target := next)], Down)
      else if i > 0 then (s[i := s[i].(active := false)], Down)
      else (s, Unchanged)
  }

  /** The lowest inactive layer, or the length. */
  function FirstOff(s: Ladder): (i: nat)
    ensures i <= |s| && (i < |s| ==> !s[i].active)
    ensures forall j :: 0 <= j < i ==> s[j].active
  {
    if s == [] || !s[0].active then 0 else 1 + FirstOff(s[1..])
  }

  predicate Raisable(o: Options, l: Layer)
    requires Find(o.specs, l.rid) < |o.specs|
  {
    Raised(SpecOf(o, l), l.target, o.increaseStep) > l.target
  }

  /** The highest layer that an increase would change, or -1. */
  function Nudged(o: Options, s: Ladder): (i: int)
    requires Listed(o, s)
    ensures -1 <= i < |s| && (i >= 0 ==> Raisable(o, s[i]))
    ensures forall j :: i < j < |s| ==> !Raisable(o, s[j])
  {
    if s == [] then -1 else if Raisable(o, s[|s| - 1]) then |s| - 1 else Nudged(o, s[..|s| - 1])
  }

  function Loosened(o: Options, s: Ladder): (Ladder, Change)
    requires Listed(o, s)
  {
    var off := FirstOff(s);
    if off < |s| then (s[off := s[off].(active := true)], Up)
    else
      var i := Nudged(o, s);
      if i < 0 then (s, Unchanged)
      else (s[i := s[i].(target := Raised(SpecOf(o, s[i]), s[i].target, o.increaseStep))], Up)
  }

  /** Neither move renames a layer. */
  lemma MovesKeepNames(o: Options, s: Ladder)
    requires Listed(o, s)
    ensures Listed(o, Tightened(o, s).0) && Listed(o, Loosened(o, s).0)
    ensures |Tightened(o, s).0| == |Loosened(o, s).0| == |s|
    ensures Tightened(o, s).1 == Unchanged ==> Tightened(o, s).0 == s
    ensures Loosened(o, s).1 == Unchanged ==> Loosened(o, s).0 == s
  {
    hide Cut, Raised, Find;
  }

  /** In a ladder in shape, the specification of a layer is the one at its place. */
  lemma SpecInPlace(o: Options, s: Ladder)
    requires Rungs(o, s) && DistinctRids(o)
    ensures Listed(o, s) && forall i :: 0 <= i < |s| ==> SpecOf(o, s[i]) == o.specs[i]
  {
  }

  // ---------- the moves as they run ----------

  method Tighten(o: Options, layers: array<Layer>) returns (change: Change)
    requires Listed(o, layers[..])
    modifies layers
    ensures (layers[..], change) == Tightened(o, old(layers[..]))
  {
    ghost var s := layers[..];
    var i := layers.Length - 1;
    while i >= 0
      invariant -1 <= i < layers.Length && layers[..] == s
      invariant forall j :: i < j < layers.Length ==> !layers[j].active
    {
      if layers[i].active {
        assert Top(s) == i;
        var spec := SpecOf(o, layers[i]);
        var next := Cut(spec, layers[i].target, o.decreaseFactor);
        if next < layers[i].target {
          layers[i] := layers[i].(target := next);
          return Down;
        }
        if i > 0 {
          layers[i] := layers[i].(active := false);
          return Down;
        }
        return Unchanged;
      }
      i := i - 1;
    }
    return Unchanged;
  }

  method Loosen(o: Options, layers: array<Layer>) returns (change: Change)
    requires Listed(o, layers[..])
    modifies layers
    ensures (layers[..], change) == Loosened(o, old(layers[..]))
  {
    ghost var s := layers[..];
    for i := 0 to layers.Length
      invariant layers[..] == s && forall j :: 0 <= j < i ==> layers[j].active
    {
      if !layers[i].active {
        assert FirstOff(s) == i;
        layers[i] := layers[i].(active := true);
        return Up;
      }
    }
    var i := layers.Length - 1;
    while i >= 0
      invariant -1 <= i < layers.Length && layers[..] == s
      invariant forall j :: i < j < layers.Length ==> !Raisable(o, s[j])
    {
      var spec := SpecOf(o, layers[i]);
      var next := Raised(spec, layers[i].target, o.increaseStep);
      if next > layers[i].target {
        assert Nudged(o, s) == i;
        layers[i] := layers[i].(target := next);
        return Up;
      }
      i := i - 1;
    }
    return Unchanged;
  }

  // ---------- how far the moves go ----------

  /** A cut leaves the floor, or as much of the target as the factor allows. */
  lemma CutIsGreatest(spec: Spec, target: nat, factor: real, n: nat)
    ensures n <= Cut(spec, target, factor) <==> n <= spec.floor || n as real <= target as real * factor
  {
    NotAboveFloor(target as real * factor, n);
  }

  lemma NotAboveFloor(x: real, n: nat)
    ensures n <= x.Floor <==> n as real <= x
  {
  }

  /** Raising goes one step up, or to the ceiling. */
  lemma RaisedIsGreatest(spec: Spec, target: nat, step: nat, n: nat)
    ensures n <= Raised(spec, target, step) <==> n <= spec.ceiling && n <= target + step
  {
  }

  /** Tightening cuts the highest active layer, and no other; or switches it off if a cut would not lower
      it and there is one below. */
  lemma TightensHighest(o: Options, s: Ladder, i: nat)
    requires Rungs(o, s) && DistinctRids(o) && i < |s| && s[i].active && forall j :: i < j < |s| ==> !s[j].active
    ensures Listed(o, s)
    ensures var next := Cut(o.specs[i], s[i].target, o.decreaseFactor);
            Tightened(o, s).0 == if next < s[i].target then s[i := s[i].(target := next)]
                                 else if i > 0 then s[i := s[i].(active := false)] else s
  {
    assert Top(s) == i;
    SpecInPlace(o, s);
    hide Cut, Top, Find, Rungs;
  }

  /** Loosening switches on the lowest layer that is off. */
  lemma LoosensLowestOff(o: Options, s: Ladder, i: nat)
    requires Rungs(o, s) && DistinctRids(o) && i < |s| && !s[i].active && forall j :: 0 <= j < i ==> s[j].active
    ensures Listed(o, s) && Loosened(o, s).0 == s[i := s[i].(active := true)]
  {
    SpecInPlace(o, s);
    assert FirstOff(s) == i;
    hide FirstOff, Nudged, Find, Listed;
  }

  /** With all of them on, it raises the highest one below its ceiling, and no other. */
  lemma RaisesHighest(o: Options, s: Ladder, i: nat)
    requires Rungs(o, s) && DistinctRids(o) && o.increaseStep > 0 && i < |s| && s[i].target < o.specs[i].ceiling
    requires forall j :: 0 <= j < |s| ==> s[j].active && (i < j ==> s[j].target == o.specs[j].ceiling)
    ensures Listed(o, s)
    ensures Loosened(o, s).0 == s[i := s[i].(target := Raised(o.specs[i], s[i].target, o.increaseStep))]
  {
    SpecInPlace(o, s);
    hide Find, Listed, Rungs, DistinctRids;
    assert FirstOff(s) == |s|;
    assert Raisable(o, s[i]) && forall j :: i < j < |s| ==> !Raisable(o, s[j]);
    hide Raised;
    assert Nudged(o, s) == i;
    hide FirstOff, Nudged;
  }

  // ---------- sums over a ladder ----------

  function Sum(w: seq<int>): int {
    if w == [] then 0 else Sum(w[..|w| - 1]) + w[|w| - 1]
  }

  lemma {:induction false} SumUpdate(w: seq<int>, i: nat, x: int)
    requires i < |w|
    ensures Sum(w[i := x]) == Sum(w) - w[i] + x
  {
    var n := |w| - 1;
    if i < n {
      SumUpdate(w[..n], i, x);
      assert w[i := x][..n] == w[..n][i := x];
    } else {
      assert w[i := x][..n] == w[..n];
    }
  }

  lemma {:induction false} SumOfNats(w: seq<int>)
    requires forall i :: 0 <= i < |w| ==> w[i] >= 0
    ensures Sum(w) >= 0 && forall i :: 0 <= i < |w| ==> w[i] <= Sum(w)
  {
    if w != [] {
      SumOfNats(w[..|w| - 1]);
    }
  }

  function ActiveTargets(s: Ladder): (w: seq<int>)
    ensures |w| == |s|
  {
    seq(|s|, i requires 0 <= i < |s| => if s[i].active then s[i].target else 0)
  }

  /** What the active layers may send in all. */
  function Total(s: Ladder): int {
    Sum(ActiveTargets(s))
  }

  /** How far each layer can still be tightened, counting its deactivation. */
  function Slacks(o: Options, s: Ladder): (w: seq<int>)
    requires |s| == |o.specs|
    ensures |w| == |s|
  {
    seq(|s|, i requires 0 <= i < |s| => if s[i].active then s[i].target - o.specs[i].floor + 1 else 0)
  }

  /** How far each layer can still be loosened, counting its activation. */
  function Gaps(o: Options, s: Ladder): (w: seq<int>)
    requires |s| == |o.specs|
    ensures |w| == |s|
  {
    seq(|s|, i requires 0 <= i < |s| => o.specs[i].ceiling - s[i].target + if s[i].active then 0 else 1)
  }

  // ---------- what the moves do to the ladder ----------

  ghost predicate AtBottom(o: Options, s: Ladder)
    requires |s| == |o.specs|
  {
    && (|s| > 0 ==> s[0].active && s[0].target == o.specs[0].floor)
    && forall i :: 0 < i < |s| ==> !s[i].active
  }

  ghost predicate AtTop(o: Options, s: Ladder)
    requires |s| == |o.specs|
  {
    forall i :: 0 <= i < |s| ==> s[i].active && s[i].target == o.specs[i].ceiling
  }

  lemma CutShrinks(spec: Spec, target: nat, factor: real)
    requires factor < 1.0 && spec.floor <= target
    ensures spec.floor <= Cut(spec, target, factor) <= target
    ensures Cut(spec, target, factor) == target <==> target == spec.floor
  {
    FloorOfProduct(target, factor);
  }

  lemma FloorOfProduct(target: nat, factor: real)
    requires factor < 1.0
    ensures var x := (target as real * factor).Floor; if target > 0 then x < target else x == 0
  {
    if target > 0 {
      Scaled(target as real, factor);
      FloorBelow(target as real * factor, target);
    } else {
      assert target as real == 0.0;
    }
  }

  lemma FloorBelow(x: real, n: nat)
    requires x < n as real
    ensures x.Floor < n
  {
  }

  lemma CutIf(spec: Spec, target: nat, factor: real)
    requires spec.floor <= target
    ensures Cut(spec, target, factor) >= spec.floor
    ensures Cut(spec, target, factor) < target <==> target > spec.floor && Lowers(target, factor)
  {
  }

  predicate Lowers(target: nat, factor: real) {
    (target as real * factor).Floor < target
  }

  lemma Scaled(x: real, factor: real)
    requires x > 0.0 && factor < 1.0
    ensures x * factor < x
  {
    assert x * (1.0 - factor) > 0.0;
  }

  /** Tightening keeps the ladder in shape, and stops only at the bottom. */
  lemma TightenKeeps(o: Options, s: Ladder)
    requires Sound(o) && Rungs(o, s)
    ensures var (t, change) := Tightened(o, s);
            && Rungs(o, t) && change != Up
            && (change == Unchanged <==> AtBottom(o, s)) && (change == Unchanged ==> t == s)
  {
    var i := Top(s);
    if i >= 0 {
      CutShrinks(o.specs[i], s[i].target, o.decreaseFactor);
      hide Cut, Top;
    }
  }

  /** Whatever the decrease factor: one cut breaks the shape of the ladder exactly when it does not lower
      a higher layer that is above its floor, and so switches it off there. */
  lemma CutBreaksShape(o: Options, s: Ladder)
    requires Rungs(o, s) && DistinctRids(o) && s != []
    ensures Listed(o, s)
    ensures var i := Top(s);
            Rungs(o, Tightened(o, s).0) <==>
            !(i > 0 && s[i].target > o.specs[i].floor && !Lowers(s[i].target, o.decreaseFactor))
  {
    var i := Top(s);
    assert i >= 0;
    SpecInPlace(o, s);
    CutIf(o.specs[i], s[i].target, o.decreaseFactor);
    LowerOne(o, s, i, Cut(o.specs[i], s[i].target, o.decreaseFactor));
    SwitchOff(o, s, i);
    hide Cut, Top, Lowers, Rungs, Find, SpecOf, DistinctRids;
  }

  /** It happens: with such a factor, on the first tick that finds too little bandwidth. */
  lemma FirstCutBreaksShape(o: Options, encodings: seq<Encoding>, sample: Sample)
    requires o.decreaseFactor >= 1.0 && DistinctRids(o) && |o.specs| >= 2
    requires forall i :: 0 <= i < |o.specs| ==> o.specs[i].floor <= o.specs[i].initial <= o.specs[i].ceiling
    requires var top := o.specs[|o.specs| - 1]; top.initial > top.floor
    requires sample.available == Some(0.0)
    ensures Rungs(o, Start(o)) && !Rungs(o, After(o, encodings, [(Some(sample), true)]).layers)
  {
    var s, n := Start(o), |o.specs| - 1;
    assert Top(s) == n;
    CutBreaksShape(o, s);
    NeverLowers(s[n].target, o.decreaseFactor);
    TotalAtLeast(s, n);
    FirstTick(o, encodings, sample);
    hide Rungs, Tightened, Listed, Total, After, Start, Lowers;
  }

  lemma FirstTick(o: Options, encodings: seq<Encoding>, sample: Sample)
    requires Overloaded(o, Start(o), 0.0, sample.available)
    ensures After(o, encodings, [(Some(sample), true)]).layers == Tightened(o, Start(o)).0
  {
    var run: seq<Tick> := [(Some(sample), true)];
    assert run[..|run| - 1] == [];
    assert After(o, encodings, []) == Initial(o, encodings);
    hide Tightened, Overloaded, Pushed;
  }

  lemma NeverLowers(target: nat, factor: real)
    requires factor >= 1.0
    ensures !Lowers(target, factor)
  {
    ScaledUp(target as real, factor);
    FloorAbove(target as real * factor, target);
  }

  lemma ScaledUp(x: real, factor: real)
    requires x >= 0.0 && factor >= 1.0
    ensures x * factor >= x
  {
    assert x * (factor - 1.0) >= 0.0;
  }

  lemma FloorAbove(x: real, n: nat)
    requires x >= n as real
    ensures x.Floor >= n
  {
  }

  lemma TotalAtLeast(s: Ladder, i: nat)
    requires i < |s| && s[i].active
    ensures Total(s) >= s[i].target
  {
    SumOfNats(ActiveTargets(s));
    assert ActiveTargets(s)[i] == s[i].target;
  }

  lemma LowerOne(o: Options, s: Ladder, i: nat, next: nat)
    requires Rungs(o, s) && i < |s| && s[i].active && o.specs[i].floor <= next
    ensures next <= s[i].target ==> Rungs(o, s[i := s[i].(target := next)])
  {
  }

  lemma SwitchOff(o: Options, s: Ladder, i: nat)
    requires Rungs(o, s) && i < |s| && s[i].active && forall j :: i < j < |s| ==> !s[j].active
    ensures i > 0 ==> (Rungs(o, s[i := s[i].(active := false)]) <==> s[i].target == o.specs[i].floor)
  {
    var t := s[i := s[i].(active := false)];
    assert t[i].target == s[i].target && !t[i].active;
  }

  /** Every cut gives up slack; with positive floors it also lowers what the layers may send in all. */
  lemma TightenSheds(o: Options, s: Ladder)
    requires Sound(o) && Rungs(o, s) && Tightened(o, s).1 == Down
    ensures var t := Tightened(o, s).0;
            && Sum(Slacks(o, t)) < Sum(Slacks(o, s))
            && ((forall i :: 0 <= i < |s| ==> o.specs[i].floor > 0) ==> Total(t) < Total(s))
  {
    var t, i := Tightened(o, s).0, Top(s);
    CutShrinks(o.specs[i], s[i].target, o.decreaseFactor);
    assert t == s[i := t[i]];
    OneSlack(o, s, i, t[i]);
    hide Cut, Top, Sum, Slacks, ActiveTargets;
  }

  lemma OneSlack(o: Options, s: Ladder, i: nat, l: Layer)
    requires |s| == |o.specs| && i < |s|
    ensures Sum(Slacks(o, s[i := l]))
         == Sum(Slacks(o, s)) - (if s[i].active then s[i].target - o.specs[i].floor + 1 else 0)
                              + (if l.active then l.target - o.specs[i].floor + 1 else 0)
    ensures Total(s[i := l]) == Total(s) - (if s[i].active then s[i].target else 0) + (if l.active then l.target else 0)
  {
    var t := s[i := l];
    assert Slacks(o, t) == Slacks(o, s)[i := Slacks(o, t)[i]];
    SumUpdate(Slacks(o, s), i, Slacks(o, t)[i]);
    assert ActiveTargets(t) == ActiveTargets(s)[i := ActiveTargets(t)[i]];
    SumUpdate(ActiveTargets(s), i, ActiveTargets(t)[i]);
  }

  /** Loosening keeps the ladder in shape, and stops only at the top. */
  lemma LoosenKeeps(o: Options, s: Ladder)
    requires Sound(o) && Rungs(o, s)
    ensures var (t, change) := Loosened(o, s);
            && Rungs(o, t) && change != Down
            && (change == Unchanged <==> AtTop(o, s)) && (change == Unchanged ==> t == s)
  {
    SpecInPlace(o, s);
    WhenAtTop(o, s);
    var off, i := FirstOff(s), Nudged(o, s);
    if off < |s| {
      SwitchOn(o, s, off);
    } else if i >= 0 {
      RaiseOne(o, s, i, Raised(o.specs[i], s[i].target, o.increaseStep));
    }
    hide Rungs, AtTop, FirstOff, Raised, DistinctRids;
  }

  lemma WhenAtTop(o: Options, s: Ladder)
    requires Sound(o) && Rungs(o, s) && Listed(o, s)
    ensures AtTop(o, s) <==> FirstOff(s) == |s| && Nudged(o, s) == -1
  {
    SpecInPlace(o, s);
    if AtTop(o, s) {
      forall i | 0 <= i < |s| ensures !Raisable(o, s[i]) {
      }
    } else if FirstOff(s) == |s| {
      var i :| 0 <= i < |s| && s[i].target != o.specs[i].ceiling;
      assert Raisable(o, s[i]);
    }
    hide FirstOff, Nudged, Find, Listed, DistinctRids, Raisable;
  }

  lemma SwitchOn(o: Options, s: Ladder, i: nat)
    requires Rungs(o, s) && i < |s| && forall j :: 0 <= j < i ==> s[j].active
    ensures Rungs(o, s[i := s[i].(active := true)])
  {
  }

  lemma RaiseOne(o: Options, s: Ladder, i: nat, next: nat)
    requires Rungs(o, s) && i < |s| && s[i].active && s[i].target <= next <= o.specs[i].ceiling
    ensures Rungs(o, s[i := s[i].(target := next)])
  {
  }

  /** Every loosening closes gaps. */
  lemma LoosenGains(o: Options, s: Ladder)
    requires Sound(o) && Rungs(o, s) && Loosened(o, s).1 == Up
    ensures Sum(Gaps(o, Loosened(o, s).0)) < Sum(Gaps(o, s))
  {
    var t := Loosened(o, s).0;
    var i := if FirstOff(s) < |s| then FirstOff(s) else Nudged(o, s);
    assert t == s[i := t[i]];
    OneGap(o, s, i, t[i]);
    hide FirstOff, Nudged, Sum, Gaps;
  }

  lemma OneGap(o: Options, s: Ladder, i: nat, l: Layer)
    requires |s| == |o.specs| && i < |s|
    ensures Sum(Gaps(o, s[i := l]))
         == Sum(Gaps(o, s)) - (o.specs[i].ceiling - s[i].target + if s[i].active then 0 else 1)
                            + (o.specs[i].ceiling - l.target + if l.active then 0 else 1)
  {
    var t := s[i := l];
    assert Gaps(o, t) == Gaps(o, s)[i := Gaps(o, t)[i]];
    SumUpdate(Gaps(o, s), i, Gaps(o, t)[i]);
  }

  function Repeat(o: Options, s: Ladder, tighten: bool, n: nat): (t: Ladder)
    requires Listed(o, s)
    ensures Listed(o, t) && |t| == |s|
    decreases n
  {
    MovesKeepNames(o, s);
    if n == 0 then s
    else Repeat(o, if tighten then Tightened(o, s).0 else Loosened(o, s).0, tighten, n - 1)
  }

  lemma RepeatStep(o: Options, s: Ladder, tighten: bool, n: nat)
    requires n > 0 && Listed(o, s)
    ensures var t := if tighten then Tightened(o, s).0 else Loosened(o, s).0;
            Listed(o, t) && |t| == |s| && Repeat(o, s, tighten, n) == Repeat(o, t, tighten, n - 1)
  {
    MovesKeepNames(o, s);
  }

  lemma {:induction false} Stays(o: Options, s: Ladder, tighten: bool, n: nat)
    requires Sound(o) && Rungs(o, s) && (if tighten then AtBottom(o, s) else AtTop(o, s))
    ensures Repeat(o, s, tighten, n) == s
  {
    if n > 0 {
      TightenKeeps(o, s);
      LoosenKeeps(o, s);
      Stays(o, s, tighten, n - 1);
    }
  }

  lemma SumsAreNats(o: Options, s: Ladder)
    requires Rungs(o, s)
    ensures Sum(Slacks(o, s)) >= 0 && Sum(Gaps(o, s)) >= 0
  {
    SumOfNats(Slacks(o, s));
    SumOfNats(Gaps(o, s));
  }

  lemma SlackLeft(o: Options, s: Ladder, n: nat)
    requires Sound(o) && Rungs(o, s) && Listed(o, s) && Tightened(o, s).1 == Down && n >= Sum(Slacks(o, s))
    ensures n > 0 && Rungs(o, Tightened(o, s).0) && n - 1 >= Sum(Slacks(o, Tightened(o, s).0))
  {
    TightenSheds(o, s);
    TightenKeeps(o, s);
    SumsAreNats(o, Tightened(o, s).0);
    hide Tightened, Slacks, Sum, Listed;
  }

  lemma GapLeft(o: Options, s: Ladder, n: nat)
    requires Sound(o) && Rungs(o, s) && Listed(o, s) && Loosened(o, s).1 == Up && n >= Sum(Gaps(o, s))
    ensures n > 0 && Rungs(o, Loosened(o, s).0) && n - 1 >= Sum(Gaps(o, Loosened(o, s).0))
  {
    LoosenGains(o, s);
    LoosenKeeps(o, s);
    SumsAreNats(o, Loosened(o, s).0);
    hide Loosened, Gaps, Sum, Listed;
  }

  lemma TightenStep(o: Options, s: Ladder, n: nat)
    requires Sound(o) && Rungs(o, s) && n >= Sum(Slacks(o, s))
    ensures Listed(o, s) && |s| == |o.specs|
    ensures var t := Tightened(o, s).0;
            AtBottom(o, s) || (n > 0 && Rungs(o, t) && n - 1 >= Sum(Slacks(o, t)) && Listed(o, t)
                               && Repeat(o, s, true, n) == Repeat(o, t, true, n - 1))
  {
    SpecInPlace(o, s);
    TightenKeeps(o, s);
    if Tightened(o, s).1 == Down {
      SlackLeft(o, s, n);
      RepeatStep(o, s, true, n);
    }
    hide Tightened, Sum, Slacks, Listed, Repeat, Rungs, Sound;
  }

  /** Tightened again and again, the ladder comes down to its lowest layer at its floor, and stays. */
  lemma {:induction false} TightensToBottom(o: Options, s: Ladder, n: nat)
    requires Sound(o) && Rungs(o, s) && n >= Sum(Slacks(o, s))
    ensures Listed(o, s) && AtBottom(o, Repeat(o, s, true, n))
    decreases n
  {
    hide *;
    TightenStep(o, s, n);
    if AtBottom(o, s) {
      Stays(o, s, true, n);
    } else {
      TightensToBottom(o, Tightened(o, s).0, n - 1);
    }
  }

  lemma LoosenStep(o: Options, s: Ladder, n: nat)
    requires Sound(o) && Rungs(o, s) && n >= Sum(Gaps(o, s))
    ensures Listed(o, s) && |s| == |o.specs|
    ensures var t := Loosened(o, s).0;
            AtTop(o, s) || (n > 0 && Rungs(o, t) && n - 1 >= Sum(Gaps(o, t)) && Listed(o, t)
                            && Repeat(o, s, false, n) == Repeat(o, t, false, n - 1))
  {
    SpecInPlace(o, s);
    LoosenKeeps(o, s);
    if Loosened(o, s).1 == Up {
      GapLeft(o, s, n);
      RepeatStep(o, s, false, n);
    }
    hide Loosened, Sum, Gaps, Listed, Repeat, Rungs, Sound;
  }

  /** Loosened again and again, it goes up until every layer is active and at its ceiling, and stays. */
  lemma {:induction false} LoosensToTop(o: Options, s: Ladder, n: nat)
    requires Sound(o) && Rungs(o, s) && n >= Sum(Gaps(o, s))
    ensures Listed(o, s) && AtTop(o, Repeat(o, s, false, n))
    decreases n
  {
    hide *;
    LoosenStep(o, s, n);
    if AtTop(o, s) {
      Stays(o, s, false, n);
    } else {
      LoosensToTop(o, Loosened(o, s).0, n - 1);
    }
  }

  // ---------- the controller ----------

  /** One reading of the sender's statistics; a missing bandwidth estimate is None. */
  datatype Sample = Sample(bytesSent: nat, packetsSent: nat, packetsLost: int, t: int, available: Option<real>)

  /** What the sender has been told about one layer. */
  datatype Encoding = Encoding(rid: string, maxBitrate: nat, active: bool)

  /** The snapshot, the previous reading, and the sender's encoding parameters. */
  datatype Controls = Controls(layers: Ladder, lossPct: real, lastChange: Change, ticks: nat, prev: Option<Sample>,
                         encodings: seq<Encoding>)

  function Grown(now: int, before: int): nat {
    if now > before then now - before else 0
  }

  function LossPct(prev: Option<Sample>, sample: Sample): real {
    if prev.None? then 0.0
    else
      var lost := Grown(sample.packetsLost, prev.value.packetsLost);
      var sent := Grown(sample.packetsSent, prev.value.packetsSent);
      if lost + sent > 0 then lost as real / (lost + sent) as real * 100.0 else 0.0
  }

  /** Loss at the high mark, or more bitrate asked for than there is. */
  predicate Overloaded(o: Options, s: Ladder, loss: real, available: Option<real>) {
    loss >= o.highLossPct || (available.Some? && available.value < Total(s) as real)
  }

  /** Little loss, and a fifth more bandwidth than asked for - or no estimate. */
  predicate HasRoom(o: Options, s: Ladder, loss: real, available: Option<real>) {
    loss < o.lowLossPct && (available.None? || available.value - Total(s) as real > Total(s) as real * 0.2)
  }

  function Decided(o: Options, s: Ladder, loss: real, available: Option<real>): (d: (Ladder, Change))
    requires Listed(o, s)
    ensures Listed(o, d.0) && |d.0| == |s| && (d.1 == Unchanged ==> d.0 == s)
  {
    MovesKeepNames(o, s);
    if Overloaded(o, s, loss, available) then Tightened(o, s)
    else if HasRoom(o, s, loss, available) then Loosened(o, s)
    else (s, Unchanged)
  }

  /** The first layer with this rid. */
  function LayerFor(s: Ladder, rid: string): Option<Layer> {
    if s == [] then None else if s[0].rid == rid then Some(s[0]) else LayerFor(s[1..], rid)
  }

  function Updated(e: Encoding, s: Ladder): Encoding {
    var layer := LayerFor(s, e.rid);
    if layer.Some? then e.(maxBitrate := layer.value.target, active := layer.value.active) else e
  }

  function Pushed(encodings: seq<Encoding>, s: Ladder): (r: seq<Encoding>)
    ensures |r| == |encodings|
  {
    seq(|encodings|, i requires 0 <= i < |encodings| => Updated(encodings[i], s))
  }

  /** A tick without a reading changes nothing; one whose parameters the sender refuses leaves the
      ladder as it was. */
  function Ticked(o: Options, s: Controls, reading: Option<Sample>, accepts: bool): (t: Controls)
    requires Listed(o, s.layers)
    ensures Listed(o, t.layers) && |t.layers| == |s.layers|
  {
    if reading.None? then s
    else
      var loss := LossPct(s.prev, reading.value);
      var (layers, change) := Decided(o, s.layers, loss, reading.value.available);
      var refused := change != Unchanged && s.encodings != [] && !accepts;
      if refused then s.(prev := reading)
      else Controls(layers, loss, change, s.ticks + 1, reading,
                 if change != Unchanged then Pushed(s.encodings, layers) else s.encodings)
  }

  class AbrController {
    const opts: Options
    var layers: Ladder
    var lossPct: real
    var lastChange: Change
    var ticks: nat
    var prev: Option<Sample>
    var encodings: seq<Encoding>

    ghost predicate Valid()
      reads this
    {
      Listed(opts, layers)
    }

    function State(): Controls
      reads this
    {
      Controls(layers, lossPct, lastChange, ticks, prev, encodings)
    }

    constructor (opts: Options, encodings: seq<Encoding>)
      ensures Valid() && this.opts == opts && State() == Initial(opts, encodings)
    {
      this.opts, this.encodings := opts, encodings;
      layers := Start(opts);
      lossPct, lastChange, ticks, prev := 0.0, Unchanged, 0, None;
    }

    method Tick(reading: Option<Sample>, accepts: bool)
      requires Valid()
      modifies this
      ensures Valid() && State() == Ticked(opts, old(State()), reading, accepts)
    {
      if reading.None? { return; }
      var sample := reading.value;
      var loss := LossPct(prev, sample);
      prev := reading;
      var s := layers;
      var copy := new Layer[|s|](i requires 0 <= i < |s| => s[i]);
      assert copy[..] == s;
      var change := Decide(copy, loss, sample.available);
      hide Decided, Listed, LossPct, Pushed;
      if change != Unchanged && |encodings| > 0 {
        var params := Push(encodings, copy);
        if !accepts { return; }
        encodings := params;
      }
      layers, lossPct, lastChange, ticks := copy[..], loss, change, ticks + 1;
    }

    /** Tightens, loosens or leaves the layers alone. */
    method Decide(copy: array<Layer>, loss: real, available: Option<real>) returns (change: Change)
      requires Listed(opts, copy[..])
      modifies copy
      ensures (copy[..], change) == Decided(opts, old(copy[..]), loss, available)
    {
      hide Tightened, Loosened, Listed, Total;
      if loss >= opts.highLossPct {
        change := Tighten(opts, copy);
        return;
      }
      var total := Total(copy[..]);
      if available.Some? && available.value - total as real < 0.0 {
        change := Tighten(opts, copy);
      } else if loss < opts.lowLossPct && (available.None? || available.value - total as real > total as real * 0.2) {
        change := Loosen(opts, copy);
      } else {
        change := Unchanged;
      }
    }

    method Push(encodings: seq<Encoding>, layers: array<Layer>) returns (params: seq<Encoding>)
      ensures params == Pushed(encodings, layers[..])
    {
      params := [];
      for i := 0 to |encodings|
        invariant |params| == i && forall j :: 0 <= j < i ==> params[j] == Updated(encodings[j], layers[..])
      {
        params := params + [Updated(encodings[i], layers[..])];
      }
    }
  }

  function Start(o: Options): (s: Ladder)
    ensures Listed(o, s) && |s| == |o.specs|
  {
    seq(|o.specs|, i requires 0 <= i < |o.specs| => Layer(o.specs[i].rid, o.specs[i].initial, true))
  }

  function Initial(o: Options, encodings: seq<Encoding>): Controls {
    Controls(Start(o), 0.0, Unchanged, 0, None, encodings)
  }

  lemma DecisionKeeps(o: Options, s: Ladder, loss: real, available: Option<real>)
    requires Sound(o) && Rungs(o, s)
    ensures Listed(o, s) && Rungs(o, Decided(o, s, loss, available).0)
  {
    SpecInPlace(o, s);
    TightenKeeps(o, s);
    LoosenKeeps(o, s);
    hide Tightened, Loosened;
  }

  // ---------- whole runs ----------

  /** A tick: what was read, and whether the sender took the parameters. */
  type Tick = (Option<Sample>, bool)

  function After(o: Options, encodings: seq<Encoding>, run: seq<Tick>): (s: Controls)
    ensures Listed(o, s.layers) && |s.layers| == |o.specs|
  {
    if run == [] then Initial(o, encodings)
    else
      var (reading, accepts) := run[|run| - 1];
      Ticked(o, After(o, encodings, run[..|run| - 1]), reading, accepts)
  }

  /** The sender's parameters for a known layer are those of the snapshot. */
  ghost predicate InStep(s: Controls) {
    forall i, j :: 0 <= i < |s.encodings| && 0 <= j < |s.layers| && FirstNamed(s.layers, s.encodings[i].rid, j) ==>
      s.encodings[i].maxBitrate == s.layers[j].target && s.encodings[i].active == s.layers[j].active
  }

  /** Layer j is the first with this rid. */
  ghost predicate FirstNamed(s: Ladder, rid: string, j: nat) {
    j < |s| && s[j].rid == rid && forall l :: 0 <= l < j ==> s[l].rid != rid
  }

  lemma {:induction false} FirstNamedIsFound(s: Ladder, rid: string, j: nat)
    requires FirstNamed(s, rid, j)
    ensures LayerFor(s, rid) == Some(s[j])
  {
    if j > 0 {
      assert s[0].rid != rid;
      FirstNamedIsFound(s[1..], rid, j - 1);
    }
  }

  lemma PushedIsInStep(encodings: seq<Encoding>, s: Ladder)
    ensures forall i, j :: 0 <= i < |encodings| && 0 <= j < |s| && FirstNamed(s, Pushed(encodings, s)[i].rid, j) ==>
              Pushed(encodings, s)[i].maxBitrate == s[j].target && Pushed(encodings, s)[i].active == s[j].active
  {
    forall i, j | 0 <= i < |encodings| && 0 <= j < |s| && FirstNamed(s, Pushed(encodings, s)[i].rid, j)
      ensures Pushed(encodings, s)[i].maxBitrate == s[j].target && Pushed(encodings, s)[i].active == s[j].active
    {
      FirstNamedIsFound(s, encodings[i].rid, j);
    }
  }

  /** Parameters that name no layer stay as they are, and all keep their names. */
  lemma PushKeepsOthers(encodings: seq<Encoding>, s: Ladder, i: nat)
    requires i < |encodings|
    ensures Pushed(encodings, s)[i].rid == encodings[i].rid
    ensures (forall j :: 0 <= j < |s| ==> s[j].rid != encodings[i].rid) ==> Pushed(encodings, s)[i] == encodings[i]
  {
    if forall j :: 0 <= j < |s| ==> s[j].rid != encodings[i].rid {
      NobodyNamed(s, encodings[i].rid);
    }
  }

  lemma {:induction false} NobodyNamed(s: Ladder, rid: string)
    requires forall j :: 0 <= j < |s| ==> s[j].rid != rid
    ensures LayerFor(s, rid) == None
  {
    if s != [] {
      NobodyNamed(s[1..], rid);
    }
  }

  /** After any ticks - readings missed, parameters refused or not - and with any options, the sender has
      been told exactly what the snapshot says, if it was at the start. */
  lemma {:induction false} SenderStaysInStep(o: Options, encodings: seq<Encoding>, run: seq<Tick>)
    requires InStep(Initial(o, encodings))
    ensures InStep(After(o, encodings, run))
  {
    if run != [] {
      SenderStaysInStep(o, encodings, run[..|run| - 1]);
      var s := After(o, encodings, run[..|run| - 1]);
      var (reading, accepts) := run[|run| - 1];
      TickStaysInStep(o, s, reading, accepts);
    }
  }

  lemma TickStaysInStep(o: Options, s: Controls, reading: Option<Sample>, accepts: bool)
    requires Listed(o, s.layers) && InStep(s)
    ensures InStep(Ticked(o, s, reading, accepts))
  {
    if reading.Some? {
      var d := Decided(o, s.layers, LossPct(s.prev, reading.value), reading.value.available);
      hide Decided, Listed, Updated;
      PushedIsInStep(s.encodings, d.0);
    }
  }

  lemma TickKeepsShape(o: Options, s: Controls, reading: Option<Sample>, accepts: bool)
    requires Sound(o) && Rungs(o, s.layers) && Listed(o, s.layers)
    ensures Rungs(o, Ticked(o, s, reading, accepts).layers)
  {
    if reading.Some? {
      DecisionKeeps(o, s.layers, LossPct(s.prev, reading.value), reading.value.available);
    }
    hide Decided, Rungs, Listed, Sound;
  }

  /** With sound options, the ladder is in shape after any ticks. */
  lemma {:induction false} LadderStaysInShape(o: Options, encodings: seq<Encoding>, run: seq<Tick>)
    requires Sound(o)
    ensures Rungs(o, After(o, encodings, run).layers)
  {
    if run != [] {
      LadderStaysInShape(o, encodings, run[..|run| - 1]);
      var (reading, accepts) := run[|run| - 1];
      TickKeepsShape(o, After(o, encodings, run[..|run| - 1]), reading, accepts);
      hide Ticked, Rungs, Sound;
    }
  }

  // ---------- what the counters decide ----------

  /** What the counters say was lost and sent since the previous reading; a counter that went down says
      nothing. */
  ghost predicate Counted(prev: Option<Sample>, now: Sample, lost: nat, sent: nat) {
    match prev
    case None => lost == 0 && sent == 0
    case Some(before) =>
      && lost == (if now.packetsLost < before.packetsLost then 0 else now.packetsLost - before.packetsLost)
      && sent == (if now.packetsSent < before.packetsSent then 0 else now.packetsSent - before.packetsSent)
  }

  /** Of the packets counted, at least pct percent were lost; of no packets, 0 percent. */
  ghost predicate ShareAtLeast(lost: nat, sent: nat, pct: real) {
    if lost + sent > 0 then 100.0 * lost as real >= pct * (lost + sent) as real else 0.0 >= pct
  }

  lemma PctIsShare(prev: Option<Sample>, now: Sample, lost: nat, sent: nat, pct: real)
    requires Counted(prev, now, lost, sent)
    ensures var loss := LossPct(prev, now);
            && loss * (lost + sent) as real == 100.0 * lost as real && (lost == 0 ==> loss == 0.0)
            && 0.0 <= loss <= 100.0 && (loss >= pct <==> ShareAtLeast(lost, sent, pct))
  {
    if lost + sent > 0 {
      ShareOf(lost as real, (lost + sent) as real, pct);
    }
  }

  lemma ShareOf(part: real, whole: real, pct: real)
    requires 0.0 <= part <= whole && whole > 0.0
    ensures var loss := part / whole * 100.0;
            && loss * whole == 100.0 * part && (part == 0.0 ==> loss == 0.0) && 0.0 <= loss <= 100.0
            && (loss >= pct <==> 100.0 * part >= pct * whole)
  {
    var q := part / whole;
    assert q * whole == part;
    assert q * 100.0 * whole == 100.0 * part;
    Cancel(q * 100.0, pct, whole);
    Cancel(q * 100.0, 0.0, whole);
    Cancel(100.0, q * 100.0, whole);
  }

  lemma Cancel(x: real, y: real, w: real)
    requires w > 0.0
    ensures x >= y <==> x * w >= y * w
  {
    if x >= y {
      assert (x - y) * w >= 0.0;
    } else {
      assert (y - x) * w > 0.0;
    }
  }

  /** A tick counts unless its change was refused; the loss it reports is the share of the packets that
      were lost since the reading before. */
  lemma LossIsShare(o: Options, s: Controls, reading: Option<Sample>, accepts: bool, lost: nat, sent: nat)
    requires Listed(o, s.layers) && reading.Some? && Counted(s.prev, reading.value, lost, sent)
    ensures var t := Ticked(o, s, reading, accepts);
            && (t.ticks == s.ticks + 1 || (t == s.(prev := reading) && s.encodings != [] && !accepts))
            && t.prev == reading
            && (t.ticks == s.ticks + 1 ==>
                  && t.lossPct * (lost + sent) as real == 100.0 * lost as real
                  && (lost == 0 ==> t.lossPct == 0.0) && 0.0 <= t.lossPct <= 100.0)
  {
    PctIsShare(s.prev, reading.value, lost, sent, 0.0);
    hide Decided, Listed, Pushed, LossPct;
  }

  /** What a tick does to the ladder: less at the high mark or when more is asked for than there is; more
      below the low mark if a fifth of what is asked for is left over, or nothing is known; else nothing. */
  lemma DecidedByCounters(o: Options, s: Controls, reading: Option<Sample>, accepts: bool, lost: nat, sent: nat)
    requires Listed(o, s.layers) && reading.Some? && Counted(s.prev, reading.value, lost, sent)
    ensures var t, total, available := Ticked(o, s, reading, accepts), Total(s.layers) as real, reading.value.available;
            t.ticks == s.ticks + 1 ==>
              t.layers == if ShareAtLeast(lost, sent, o.highLossPct) || (available.Some? && available.value < total)
                          then Tightened(o, s.layers).0
                          else if !ShareAtLeast(lost, sent, o.lowLossPct)
                                  && (available.None? || 5.0 * (available.value - total) > total)
                          then Loosened(o, s.layers).0 else s.layers
  {
    PctIsShare(s.prev, reading.value, lost, sent, o.highLossPct);
    PctIsShare(s.prev, reading.value, lost, sent, o.lowLossPct);
    hide Tightened, Loosened, Listed, Pushed, LossPct, Total, ShareAtLeast;
  }

  /** The reported change tells truly whether, and which way, the ladder moved. */
  lemma ReportedChange(o: Options, s: Controls, reading: Option<Sample>, accepts: bool)
    requires Listed(o, s.layers)
    ensures var t := Ticked(o, s, reading, accepts);
            t.ticks == s.ticks + 1 ==>
              && (t.lastChange == Unchanged <==> t.layers == s.layers)
              && (t.lastChange == Down ==> t.layers == Tightened(o, s.layers).0)
              && (t.lastChange == Up ==> t.layers == Loosened(o, s.layers).0)
  {
    if reading.Some? {
      var loss := LossPct(s.prev, reading.value);
      hide Listed, Pushed, LossPct;
      DecisionMoves(o, s.layers, loss, reading.value.available);
      hide Decided;
    }
  }

  lemma DecisionMoves(o: Options, s: Ladder, loss: real, available: Option<real>)
    requires Listed(o, s)
    ensures var d := Decided(o, s, loss, available);
            && (d.1 == Unchanged <==> d.0 == s) && (d.1 == Down ==> d.0 == Tightened(o, s).0)
            && (d.1 == Up ==> d.0 == Loosened(o, s).0)
  {
    MovesMove(o, s);
    hide Tightened, Loosened, Listed, Total;
  }

  lemma MovesMove(o: Options, s: Ladder)
    requires Listed(o, s)
    ensures Tightened(o, s).1 == (if Tightened(o, s).0 == s then Unchanged else Down)
    ensures Loosened(o, s).1 == (if Loosened(o, s).0 == s then Unchanged else Up)
  {
    hide Cut, Raised, Find;
  }

  /** With no new loss, and no estimate or a fifth to spare, a tick never asks for less: unless the ladder
      is at the top or the sender refuses, it asks for more. */
  lemma QuietTickLoosens(o: Options, s: Controls, reading: Option<Sample>, accepts: bool, sent: nat)
    requires Sound(o) && Rungs(o, s.layers) && reading.Some? && Counted(s.prev, reading.value, 0, sent)
    requires o.highLossPct > 0.0 && o.lowLossPct > 0.0
    requires var available := reading.value.available;
             available.Some? ==> 5.0 * (available.value - Total(s.layers) as real) > Total(s.layers) as real
    ensures var t := Ticked(o, s, reading, accepts);
            if AtTop(o, s.layers) || (s.encodings != [] && !accepts) then t.layers == s.layers
            else Sum(Gaps(o, t.layers)) < Sum(Gaps(o, s.layers))
  {
    SpecInPlace(o, s.layers);
    DecidedByCounters(o, s, reading, accepts, 0, sent);
    LossIsShare(o, s, reading, accepts, 0, sent);
    TotalIsNat(s.layers);
    LoosenKeeps(o, s.layers);
    if Loosened(o, s.layers).1 == Up {
      LoosenGains(o, s.layers);
    }
    NothingLost(sent, o.highLossPct);
    NothingLost(sent, o.lowLossPct);
    hide Tightened, Loosened, AtTop, Rungs, Gaps, Total, Sum, Pushed, LossPct, ShareAtLeast, Listed, Counted;
  }

  lemma NothingLost(sent: nat, pct: real)
    requires pct > 0.0
    ensures !ShareAtLeast(0, sent, pct)
  {
    if sent > 0 {
      assert pct * sent as real > 0.0;
    }
  }

  lemma TotalIsNat(s: Ladder)
    ensures Total(s) >= 0
  {
    SumOfNats(ActiveTargets(s));
  }

  /** Too much loss or too little bandwidth is never answered with more: unless the ladder is at the
      bottom or the sender refuses, it then asks for strictly less. */
  lemma OverloadSheds(o: Options, s: Controls, reading: Option<Sample>, accepts: bool, lost: nat, sent: nat)
    requires Sound(o) && Rungs(o, s.layers) && reading.Some?
    requires Counted(s.prev, reading.value, lost, sent)
    requires ShareAtLeast(lost, sent, o.highLossPct)
             || (reading.value.available.Some? && reading.value.available.value < Total(s.layers) as real)
    ensures var t := Ticked(o, s, reading, accepts);
            if AtBottom(o, s.layers) || (s.encodings != [] && !accepts) then t.layers == s.layers
            else Sum(Slacks(o, t.layers)) < Sum(Slacks(o, s.layers))
                 && ((forall i :: 0 <= i < |s.layers| ==> o.specs[i].floor > 0) ==> Total(t.layers) < Total(s.layers))
  {
    SpecInPlace(o, s.layers);
    DecidedByCounters(o, s, reading, accepts, lost, sent);
    LossIsShare(o, s, reading, accepts, lost, sent);
    TightenKeeps(o, s.layers);
    if Tightened(o, s.layers).1 == Down {
      TightenSheds(o, s.layers);
    }
    hide Tightened, Loosened, AtBottom, Rungs, Slacks, Total, Sum, Pushed, LossPct, ShareAtLeast, Listed, Counted;
  }
}
