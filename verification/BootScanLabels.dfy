/** The walk by labels: which bootdevs a boot order visits, and with which flags. */
module BootScanLabels {
  import opened Wrappers
  import opened BootScan
  import opened BootScanRuns
  import opened BootScanOrder
  import opened BootScanGlobals

  // ----- The bootdevs a boot order names -----

  /** Positions at or after `i` of the bootdevs of one media uclass, in list order. */
  function AllOf(devs: seq<Dev>, uclass: nat, i: nat): seq<nat>
    requires i <= |devs|
    decreases |devs| - i
  {
    if i == |devs| then []
    else (if devs[i].uclass == uclass then [i] else []) + AllOf(devs, uclass, i + 1)
  }

  /** The bootdevs a label names: all of its uclass if it has no sequence number,
      else the first one with that number. */
  function LabelDevs(devs: seq<Dev>, l: Label): seq<nat> {
    var j := DevForLabel(devs, l, 0);
    if !l.known then []
    else if l.seqno == -1 then AllOf(devs, l.uclass, 0)
    else if j < |devs| then [j] else []
  }

  /** A label with a sequence number names the first bootdev of its uclass with that
      number, and nothing exactly when there is none. */
  lemma NumberedLabel(devs: seq<Dev>, l: Label, j: nat)
    requires l.known && l.seqno != -1
    ensures LabelDevs(devs, l) == [j] <==>
            && j < |devs| && devs[j].uclass == l.uclass && devs[j].seqno == l.seqno
            && forall k :: 0 <= k < j ==> !(devs[k].uclass == l.uclass && devs[k].seqno == l.seqno)
    ensures LabelDevs(devs, l) == [] <==>
            forall k :: 0 <= k < |devs| ==> !(devs[k].uclass == l.uclass && devs[k].seqno == l.seqno)
  {
    var i := DevForLabel(devs, l, 0);
    assert forall k :: 0 <= k < i ==> !Fits(devs[k], l);
    assert LabelDevs(devs, l) == [j] <==> i < |devs| && i == j;
  }

  lemma {:induction false} AllOfHas(devs: seq<Dev>, uclass: nat, i: nat, j: nat)
    requires i <= |devs|
    ensures j in AllOf(devs, uclass, i) <==> i <= j < |devs| && devs[j].uclass == uclass
    decreases |devs| - i
  {
    if i < |devs| {
      AllOfHas(devs, uclass, i + 1, j);
      assert j in AllOf(devs, uclass, i) <==>
             (j == i && devs[i].uclass == uclass) || j in AllOf(devs, uclass, i + 1);
    }
  }

  predicate Ascends(ds: seq<nat>) { forall a, b :: 0 <= a < b < |ds| ==> ds[a] < ds[b] }

  lemma {:induction false} AllOfAscends(devs: seq<Dev>, uclass: nat, i: nat)
    requires i <= |devs|
    ensures Ascends(AllOf(devs, uclass, i))
    decreases |devs| - i
  {
    if i < |devs| {
      var rest := AllOf(devs, uclass, i + 1);
      AllOfAscends(devs, uclass, i + 1);
      AllOfAfter(devs, uclass, i + 1);
      AscendsMore(i, rest);
      hide Ascends;
      assert [] + rest == rest;
    }
  }

  lemma AllOfAfter(devs: seq<Dev>, uclass: nat, i: nat)
    requires i <= |devs|
    ensures forall b :: 0 <= b < |AllOf(devs, uclass, i)| ==> i <= AllOf(devs, uclass, i)[b]
  {
    var ds := AllOf(devs, uclass, i);
    hide AllOf;
    forall b | 0 <= b < |ds|
      ensures i <= ds[b]
    {
      AllOfHas(devs, uclass, i, ds[b]);
    }
  }

  lemma AscendsMore(i: nat, rest: seq<nat>)
    requires Ascends(rest) && forall b :: 0 <= b < |rest| ==> i < rest[b]
    ensures Ascends([i] + rest)
  {
  }

  /** A label without a sequence number names all bootdevs of its uclass, in list
      order; an unknown one names none. */
  lemma PlainLabel(devs: seq<Dev>, l: Label, j: nat)
    requires l.seqno == -1 || !l.known
    ensures j in LabelDevs(devs, l) <==> l.known && j < |devs| && devs[j].uclass == l.uclass
    ensures Ascends(LabelDevs(devs, l))
  {
    AllOfHas(devs, l.uclass, 0, j);
    AllOfAscends(devs, l.uclass, 0);
  }

  /** A visit that is due, and whether its bootdev probes. */
  datatype Stop = Stop(visit: Visit, probes: bool)

  function StopAt(devs: seq<Dev>, d: nat, flags: MethFlags): Stop {
    Stop(Visit(d, flags), d < |devs| && devs[d].probe == 0)
  }

  /** The bootdevs in turn, the first with its own flags. */
  function Stops(devs: seq<Dev>, ds: seq<nat>, first: MethFlags): seq<Stop> {
    if ds == [] then [] else [StopAt(devs, ds[0], first)] + Stops(devs, ds[1..], UclassFlags)
  }

  /** A label's stops: its flags go with its first bootdev only. */
  function LabelStops(devs: seq<Dev>, l: Label): seq<Stop> { Stops(devs, LabelDevs(devs, l), LabelFlags(l)) }

  /** What the labels from number `k` on name, each looked up after its own hunt; a
      label whose hunt fails names nothing. */
  function Named(env: Env, it: Iter, k: nat): seq<Stop>
    requires env.labels.Some? && k <= |env.labels.value|
    decreases |env.labels.value| - k
  {
    if k == |env.labels.value| then []
    else
      var l := env.labels.value[k];
      var (it1, ret) := HuntFrom(env, it, Matching(l), 0, 0);
      (if ret == 0 then LabelStops(it1.devs, l) else []) + Named(env, it1, k + 1)
  }

  /** All the stops of a boot order; none if the pre-scan hunt fails. */
  function BootOrder(env: Env, s: Setup): seq<Stop>
    requires env.Valid() && env.labels.Some?
  {
    var (it, ret) := Prescan(env, Fresh(env, s));
    if ret == 0 then Named(env, it, 0) else []
  }

  /** The visits up to the first bootdev that does not probe. */
  function Reached(order: seq<Stop>): seq<Visit> {
    if order == [] || !order[0].probes then [] else [order[0].visit] + Reached(order[1..])
  }

  /** All visits of an order. */
  function Visits(order: seq<Stop>): (vs: seq<Visit>)
    ensures |vs| == |order| && forall i :: 0 <= i < |vs| ==> vs[i] == order[i].visit
  {
    seq(|order|, i requires 0 <= i < |order| => order[i].visit)
  }

  lemma {:induction false} ReachedStops(order: seq<Stop>)
    ensures |Reached(order)| <= |order|
    ensures forall i :: 0 <= i < |Reached(order)| ==> order[i].probes && Reached(order)[i] == order[i].visit
    ensures |Reached(order)| < |order| ==> !order[|Reached(order)|].probes
  {
    if order != [] && order[0].probes {
      var rest := order[1..];
      ReachedStops(rest);
      forall i | 0 <= i < |Reached(order)|
        ensures order[i].probes && Reached(order)[i] == order[i].visit
      {
        if i > 0 { assert rest[i - 1] == order[i]; }
      }
    }
  }

  /** What is reached is a beginning, and all of it exactly when all bootdevs probe. */
  lemma ReachedIsPart(order: seq<Stop>)
    ensures Reached(order) <= Visits(order)
    ensures Reached(order) == Visits(order) <==> forall i :: 0 <= i < |order| ==> order[i].probes
  {
    hide Reached;
    ReachedStops(order);
    if |Reached(order)| == |order| { assert Reached(order) == Visits(order); }
  }

  lemma ReachedFirst(s: Stop, rest: seq<Stop>)
    ensures Reached([s] + rest) == if s.probes then [s.visit] + Reached(rest) else []
  {
    assert ([s] + rest)[1..] == rest;
  }

  // ----- Hunting -----

  lemma {:induction false} NamedSame(env: Env, it: Iter, it': Iter, k: nat)
    requires env.labels.Some? && k <= |env.labels.value|
    requires it'.devs == it.devs && it'.hunted == it.hunted
    ensures Named(env, it, k) == Named(env, it', k)
    decreases |env.labels.value| - k
  {
    if k < |env.labels.value| {
      var l := env.labels.value[k];
      hide HuntFrom, LabelStops;
      HuntSame(env, it, it', Matching(l), 0, 0);
      NamedSame(env, HuntFrom(env, it, Matching(l), 0, 0).0, HuntFrom(env, it', Matching(l), 0, 0).0, k + 1);
    }
  }

  // ----- Going to the next label -----

  lemma {:induction false} AllOfNext(devs: seq<Dev>, uclass: nat, i: nat, j: nat)
    requires i <= j <= |devs| && forall k :: i <= k < j ==> devs[k].uclass != uclass
    requires j < |devs| ==> devs[j].uclass == uclass
    ensures AllOf(devs, uclass, i) == if j < |devs| then [j] + AllOf(devs, uclass, j + 1) else []
    decreases j - i
  {
    if i < j { AllOfNext(devs, uclass, i + 1, j); }
  }

  /** Bootdevs left of a label once its bootdev `d` is in use. */
  function DevsLeftOf(devs: seq<Dev>, d: nat, flags: MethFlags): seq<nat>
    requires d < |devs|
  {
    if flags.singleUclass then AllOf(devs, devs[d].uclass, d + 1) else []
  }

  function RestOfLabel(devs: seq<Dev>, d: nat, flags: MethFlags): seq<Stop>
    requires d < |devs|
  {
    Stops(devs, DevsLeftOf(devs, d, flags), UclassFlags)
  }

  lemma StopsFirst(devs: seq<Dev>, d: nat, rest: seq<nat>, first: MethFlags)
    ensures Stops(devs, [d] + rest, first) == [StopAt(devs, d, first)] + Stops(devs, rest, UclassFlags)
  {
    assert ([d] + rest)[1..] == rest;
  }

  lemma LabelSplit(devs: seq<Dev>, l: Label)
    ensures var j := DevForLabel(devs, l, 0);
            LabelStops(devs, l)
            == if l.known && j < |devs| then
                 [StopAt(devs, j, LabelFlags(l))] + RestOfLabel(devs, j, LabelFlags(l))
               else []
  {
    var j := DevForLabel(devs, l, 0);
    if l.seqno == -1 {
      assert forall k :: 0 <= k < j ==> !Fits(devs[k], l);
      AllOfNext(devs, l.uclass, 0, j);
    }
    if l.known && j < |devs| {
      var left := DevsLeftOf(devs, j, LabelFlags(l));
      assert LabelDevs(devs, l) == [j] + left;
      StopsFirst(devs, j, left, LabelFlags(l));
    }
  }

  /** What a choice uses up and leaves. */
  function ChoiceAndRest(env: Env, c: Choice): seq<Stop>
    requires env.labels.Some?
  {
    if c.ret == 0 && c.dev < |c.it.devs| && 0 <= c.it.curLabel < |env.labels.value| then
      [StopAt(c.it.devs, c.dev, c.flags)]
      + (RestOfLabel(c.it.devs, c.dev, c.flags) + Named(env, c.it, c.it.curLabel + 1))
    else []
  }

  lemma NextLabelCases(env: Env, it: Iter)
    requires env.labels.Some? && -1 <= it.curLabel < |env.labels.value|
    ensures var it1 := it.(curLabel := it.curLabel + 1);
            NextLabel(env, it) ==
            if it1.curLabel == |env.labels.value| then Choice(it1, ENODEV, 0, NoFlags)
            else
              var l := env.labels.value[it1.curLabel];
              var (it2, ret) := HuntFrom(env, it1, Matching(l), 0, 0);
              var j := DevForLabel(it2.devs, l, 0);
              if ret != 0 || !l.known || j == |it2.devs| then NextLabel(env, it2)
              else Choice(it2, 0, j, LabelFlags(l))
  {
    hide HuntFrom, DevForLabel, LabelFlags;
  }

  lemma NamedAt(env: Env, it: Iter, k: nat)
    requires env.labels.Some? && k < |env.labels.value|
    ensures var l := env.labels.value[k];
            var (it1, ret) := HuntFrom(env, it, Matching(l), 0, 0);
            Named(env, it, k) == (if ret == 0 then LabelStops(it1.devs, l) else []) + Named(env, it1, k + 1)
  {
    hide LabelStops, HuntFrom;
  }

  /** Going to the next label takes the first stop that the labels name, and leaves
      the others. */
  lemma {:induction false} NextLabelNamed(env: Env, it: Iter)
    requires env.labels.Some? && -1 <= it.curLabel < |env.labels.value|
    ensures Named(env, it, it.curLabel + 1) == ChoiceAndRest(env, NextLabel(env, it))
    decreases |env.labels.value| - it.curLabel
  {
    NoneNamed(env, it);
    NextLabelCases(env, it);
    hide LabelStops, RestOfLabel, DevForLabel, NextLabel, LabelFlags, HuntFrom, Named, StopAt;
    var it1 := it.(curLabel := it.curLabel + 1);
    if it1.curLabel < |env.labels.value| {
      var l := env.labels.value[it1.curLabel];
      var (it2, ret) := HuntFrom(env, it1, Matching(l), 0, 0);
      LabelNamed(env, it, it2, ret);
      var j := DevForLabel(it2.devs, l, 0);
      hide ChoiceAndRest;
      if ret != 0 || !l.known || j == |it2.devs| {
        NextLabelNamed(env, it2);
      } else {
        ChoiceIs(env, it2, j, LabelFlags(l));
      }
    }
  }

  lemma ChoiceIs(env: Env, it: Iter, d: nat, flags: MethFlags)
    requires env.labels.Some? && d < |it.devs| && 0 <= it.curLabel < |env.labels.value|
    ensures ChoiceAndRest(env, Choice(it, 0, d, flags))
            == [StopAt(it.devs, d, flags)] + (RestOfLabel(it.devs, d, flags) + Named(env, it, it.curLabel + 1))
  {
    hide StopAt, RestOfLabel, Named;
  }

  /** One label: the stops it names, then those of the others. */
  lemma LabelNamed(env: Env, it: Iter, it2: Iter, ret: int)
    requires env.labels.Some? && -1 <= it.curLabel < |env.labels.value| - 1
    requires (it2, ret) == HuntFrom(env, it.(curLabel := it.curLabel + 1),
                                    Matching(env.labels.value[it.curLabel + 1]), 0, 0)
    ensures var l := env.labels.value[it.curLabel + 1];
            var j := DevForLabel(it2.devs, l, 0);
            var named := Named(env, it2, it2.curLabel + 1);
            Named(env, it, it.curLabel + 1)
            == if ret != 0 || !l.known || j == |it2.devs| then named
               else [StopAt(it2.devs, j, LabelFlags(l))] + (RestOfLabel(it2.devs, j, LabelFlags(l)) + named)
  {
    hide LabelStops, RestOfLabel, DevForLabel, LabelFlags, HuntFrom, Named, StopAt;
    var it1 := it.(curLabel := it.curLabel + 1);
    var l := env.labels.value[it1.curLabel];
    var j := DevForLabel(it2.devs, l, 0);
    NamedSame(env, it, it1, it1.curLabel);
    NamedAt(env, it1, it1.curLabel);
    LabelSplit(it2.devs, l);
    var stops := if ret == 0 then LabelStops(it2.devs, l) else [];
    var named := Named(env, it2, it2.curLabel + 1);
    if ret == 0 && l.known && j < |it2.devs| {
      FirstThenRest(StopAt(it2.devs, j, LabelFlags(l)), RestOfLabel(it2.devs, j, LabelFlags(l)), named, stops + named);
    } else {
      NoFirst(named, stops + named);
    }
  }

  lemma NoneNamed(env: Env, it: Iter)
    requires env.labels.Some?
    ensures Named(env, it, |env.labels.value|) == []
  {
  }

  lemma NoFirst(named: seq<Stop>, all: seq<Stop>)
    requires all == [] + named
    ensures all == named
  {
  }

  lemma FirstThenRest(first: Stop, rest: seq<Stop>, named: seq<Stop>, all: seq<Stop>)
    requires all == ([first] + rest) + named
    ensures all == [first] + (rest + named)
  {
  }

  // ----- What is still to come -----

  /** On a bootdev that a label named. */
  predicate AtLabel(env: Env, it: Iter) {
    env.labels.Some? && it.dev.Some? && it.dev.value < |it.devs| && 0 <= it.curLabel < |env.labels.value|
  }

  function ToCome(env: Env, it: Iter): seq<Stop>
    requires AtLabel(env, it)
  {
    RestOfLabel(it.devs, it.dev.value, it.methodFlags) + Named(env, it, it.curLabel + 1)
  }

  lemma ToComeSame(env: Env, it: Iter, it': Iter)
    requires AtLabel(env, it)
    requires it'.dev == it.dev && it'.devs == it.devs && it'.hunted == it.hunted
    requires it'.methodFlags == it.methodFlags && it'.curLabel == it.curLabel
    ensures ToCome(env, it') == ToCome(env, it)
  {
    hide Named, RestOfLabel;
    NamedSame(env, it, it', it.curLabel + 1);
  }

  lemma SelectByLabel(env: Env, it: Iter)
    requires BetweenDevices(env, it, true) && !it.flags.Single() && AtLabel(env, it)
    ensures var u := NextSuch(it.devs, SameUclass(it.devs[it.dev.value]), it.dev.value + 1);
            SelectDev(env, it, true)
            == if it.methodFlags.singleUclass && u < |it.devs| then Choice(it, 0, u, UclassFlags)
               else NextLabel(env, it)
  {
    hide NextSuch, NextLabel;
  }

  /** The rest of a label begins with the next bootdev of its uclass. */
  lemma RestNext(devs: seq<Dev>, d: nat, flags: MethFlags)
    requires d < |devs|
    ensures var u := NextSuch(devs, SameUclass(devs[d]), d + 1);
            RestOfLabel(devs, d, flags)
            == if flags.singleUclass && u < |devs| then
                 [StopAt(devs, u, UclassFlags)] + RestOfLabel(devs, u, UclassFlags)
               else []
  {
    var u := NextSuch(devs, SameUclass(devs[d]), d + 1);
    if flags.singleUclass {
      AllOfNext(devs, devs[d].uclass, d + 1, u);
      if u < |devs| { StopsFirst(devs, u, AllOf(devs, devs[d].uclass, u + 1), UclassFlags); }
    }
  }

  /** The bootdev chosen next is the next stop to come. */
  lemma SelectIsNext(env: Env, it: Iter)
    requires BetweenDevices(env, it, true) && !it.flags.Single() && AtLabel(env, it)
    ensures ToCome(env, it) == ChoiceAndRest(env, SelectDev(env, it, true))
  {
    hide Named, NextLabel, SelectDev, RestOfLabel, NextSuch, StopAt;
    var d := it.dev.value;
    var u := NextSuch(it.devs, SameUclass(it.devs[d]), d + 1);
    var named := Named(env, it, it.curLabel + 1);
    SelectByLabel(env, it);
    RestNext(it.devs, d, it.methodFlags);
    if it.methodFlags.singleUclass && u < |it.devs| {
      FirstThenRest(StopAt(it.devs, u, UclassFlags), RestOfLabel(it.devs, u, UclassFlags), named, ToCome(env, it));
    } else {
      NextLabelNamed(env, it);
      NoFirst(named, ToCome(env, it));
    }
  }

  /** The first bootdev of a walk is the first stop of the boot order. */
  lemma SetupIsFirst(env: Env, s: Setup, it: Iter)
    requires s.Valid(env) && env.labels.Some? && it.curPrio < BOOTDEVP_COUNT
    requires it.flags == s.flags && it.devs == s.devs && it.hunted == s.hunted
    ensures var c := SetupIter(env, it);
            if c.ret == 0 then BootOrder(env, s) == ChoiceAndRest(env, c) else Reached(BootOrder(env, s)) == []
  {
    hide Named, NextLabel, HuntFrom, RestOfLabel;
    SamePrescan(env, Fresh(env, s), it);
    var (it0, ret) := Prescan(env, it);
    if ret == 0 {
      var it1 := it0.(labelled := true, curLabel := -1);
      NamedSame(env, Prescan(env, Fresh(env, s)).0, it1, 0);
      NextLabelNamed(env, it1);
    }
  }

  // ----- Along a run -----

  /** The walk over bootdevs is over. */
  predicate Over(it: Iter) { it.curPrio == BOOTDEVP_COUNT || (!it.doingGlobal && it.dev.None?) }

  /** Visits so far and visits to come add up to what the boot order reaches. */
  predicate OnTrack(env: Env, s: Setup, it: Iter)
    requires env.Valid() && env.labels.Some?
  {
    && !it.flags.Single() && it.flags == s.flags
    && if Over(it) then it.visits == Reached(BootOrder(env, s))
       else if it.doingGlobal then it.devs == s.devs && it.hunted == s.hunted && it.visits == []
       else AtLabel(env, it) && it.visits + Reached(ToCome(env, it)) == Reached(BootOrder(env, s))
  }

  /** With no global bootmeth due, a choice is used if it probes. */
  lemma UseCases(env: Env, c: Choice)
    requires env.Valid() && (c.ret == 0 ==> c.dev < |c.it.devs|)
    requires NoneDue(env, c.it.done, c.it.curPrio, |env.order|)
    ensures UseChoice(env, c)
            == if c.ret != 0 then (SetDev(c.it, None, NoFlags), c.ret)
               else if c.it.devs[c.dev].probe != 0 then (c.it, c.it.devs[c.dev].probe)
               else (SetDev(c.it, Some(c.dev), c.flags), 0)
  {
  }

  /** One more visit, one less to come. */
  lemma VisitMoves(visits: seq<Visit>, first: Stop, rest: seq<Stop>, order: seq<Stop>, total: seq<Visit>)
    requires visits + Reached(order) == total && order == [first] + rest
    ensures if first.probes then (visits + [first.visit]) + Reached(rest) == total else visits == total
  {
    ReachedFirst(first, rest);
    assert visits + ([first.visit] + Reached(rest)) == (visits + [first.visit]) + Reached(rest);
    assert visits + [] == visits;
  }

  lemma ChoiceThenToCome(env: Env, c: Choice, it1: Iter)
    requires env.labels.Some? && c.ret == 0 && c.dev < |c.it.devs| && 0 <= c.it.curLabel < |env.labels.value|
    requires it1 == SetDev(c.it, Some(c.dev), c.flags)
    ensures ChoiceAndRest(env, c) == [StopAt(c.it.devs, c.dev, c.flags)] + ToCome(env, it1)
  {
    hide Named, RestOfLabel;
    NamedSame(env, c.it, it1, c.it.curLabel + 1);
  }

  lemma AtStopOnTrack(env: Env, s: Setup, it: Iter)
    requires s.Valid(env) && env.labels.Some? && it.flags == s.flags && !it.doingGlobal
    requires it.curPrio < BOOTDEVP_COUNT && AtLabel(env, it)
    requires it.visits + Reached(ToCome(env, it)) == Reached(BootOrder(env, s))
    ensures OnTrack(env, s, it) && !Over(it)
  {
    hide ToCome, BootOrder, Reached;
  }

  /** A choice is visited if it probes; if not, or if there is none, the walk is over. */
  lemma UseOnTrack(env: Env, s: Setup, it: Iter, c: Choice, order: seq<Stop>)
    requires s.Valid(env) && env.labels.Some? && it.visits + Reached(order) == Reached(BootOrder(env, s))
    requires c.it.visits == it.visits && c.it.flags == s.flags && !c.it.doingGlobal
    requires c.it.curPrio < BOOTDEVP_COUNT && c.it.curMethod == 0
    requires NoneDue(env, c.it.done, c.it.curPrio, |env.order|)
    requires c.ret == 0 ==>
               && c.dev < |c.it.devs| && 0 <= c.it.curLabel < |env.labels.value| && order == ChoiceAndRest(env, c)
    requires c.ret != 0 ==> Reached(order) == []
    ensures var (it1, ret) := UseChoice(env, c);
            if ret == 0 then OnTrack(env, s, it1) && !Over(it1) && !it1.doingGlobal
            else it1.visits == Reached(BootOrder(env, s)) && it1.flags == s.flags
  {
    UseCases(env, c);
    hide BootOrder, ToCome, ChoiceAndRest, UseChoice, NoneDue, Reached, OnTrack;
    var total := Reached(BootOrder(env, s));
    if c.ret == 0 {
      var it1 := SetDev(c.it, Some(c.dev), c.flags);
      ChoiceThenToCome(env, c, it1);
      VisitMoves(it.visits, StopAt(c.it.devs, c.dev, c.flags), ToCome(env, it1), order, total);
      if c.it.devs[c.dev].probe == 0 { AtStopOnTrack(env, s, it1); }
    } else {
      assert it.visits + [] == it.visits;
    }
  }

  lemma NextDeviceOnTrack(env: Env, s: Setup, it: Iter, incDev: bool)
    requires s.Valid(env) && BetweenDevices(env, it, incDev) && env.labels.Some? && !it.flags.Single()
    requires it.flags == s.flags
    requires if incDev then AtLabel(env, it) && it.visits + Reached(ToCome(env, it)) == Reached(BootOrder(env, s))
             else it.devs == s.devs && it.hunted == s.hunted && it.visits == []
    ensures OnTrack(env, s, NextDevice(env, it, incDev).0)
    ensures NextDevice(env, it, incDev).1 != 0 ==> Over(NextDevice(env, it, incDev).0)
  {
    hide SelectDev, BootOrder, Named, RestOfLabel, UseChoice, FirstAllowed, Reached;
    var c := SelectDev(env, it, incDev);
    var order := NextOrder(env, s, it, incDev);
    SelectKeeps(env, it, incDev);
    UseOnTrack(env, s, it, c, order);
  }

  /** What is to come before a choice, and that the choice takes its first stop. */
  lemma NextOrder(env: Env, s: Setup, it: Iter, incDev: bool) returns (order: seq<Stop>)
    requires s.Valid(env) && BetweenDevices(env, it, incDev) && env.labels.Some? && !it.flags.Single()
    requires it.flags == s.flags
    requires if incDev then AtLabel(env, it) && it.visits + Reached(ToCome(env, it)) == Reached(BootOrder(env, s))
             else it.devs == s.devs && it.hunted == s.hunted && it.visits == []
    ensures it.visits + Reached(order) == Reached(BootOrder(env, s))
    ensures var c := SelectDev(env, it, incDev);
            if c.ret == 0 then order == ChoiceAndRest(env, c) else Reached(order) == []
  {
    hide SetupIter, BootOrder, Named, RestOfLabel;
    if incDev {
      SelectIsNext(env, it);
      order := ToCome(env, it);
    } else {
      SetupIsFirst(env, s, it);
      order := BootOrder(env, s);
      assert [] + Reached(order) == Reached(order);
    }
  }

  lemma SelectKeeps(env: Env, it: Iter, incDev: bool)
    requires BetweenDevices(env, it, incDev) && env.labels.Some? && !it.flags.Single()
    ensures var c := SelectDev(env, it, incDev);
            && c.it.curPrio == it.curPrio
            && (c.ret == 0 ==> c.dev < |c.it.devs| && 0 <= c.it.curLabel < |env.labels.value|)
  {
    hide NextLabel, Prescan;
  }

  lemma StillOnTrack(env: Env, s: Setup, it: Iter, it': Iter)
    requires env.Valid() && env.labels.Some? && OnTrack(env, s, it)
    requires it'.flags == it.flags && it'.curPrio == it.curPrio && it'.doingGlobal == it.doingGlobal
    requires it'.dev == it.dev && it'.methodFlags == it.methodFlags && it'.curLabel == it.curLabel
    requires it'.devs == it.devs && it'.hunted == it.hunted && it'.visits == it.visits
    ensures OnTrack(env, s, it')
  {
    hide ToCome, BootOrder;
    if !Over(it) && !it.doingGlobal { ToComeSame(env, it, it'); }
  }

  lemma IncrementOnTrack(env: Env, s: Setup, it: Iter)
    requires s.Valid(env) && env.labels.Some? && Ok(env, it) && OnTrack(env, s, it)
    ensures OnTrack(env, s, IterIncr(env, it).0)
    ensures IterIncr(env, it).1 != 0 && it.err != BF_NO_MORE_DEVICES ==> Over(IterIncr(env, it).0)
  {
    hide NextDevice, ToCome, BootOrder, Reached;
    var it1 := it.(entry := 0);
    if it.err == BF_NO_MORE_DEVICES || Again(env, it) {
      StillOnTrack(env, s, it, IterIncr(env, it).0);
    } else if it.doingGlobal {
      NextGlobalPoised(env, it1);
      if FirstAllowed(env, it1, it1.curMethod + 1) < |env.order| {
        StillOnTrack(env, s, it, IterIncr(env, it).0);
      } else if it.curPrio < BOOTDEVP_COUNT {
        NextDeviceOnTrack(env, s, it1.(doingGlobal := false, curMethod := 0), false);
      }
    } else if it1.curMethod + 1 < env.Normal() || (it.err != BF_NO_MORE_PARTS && it.part + 1 <= it.maxPart) {
      StillOnTrack(env, s, it, IterIncr(env, it).0);
    } else {
      var it2 := it1.(curMethod := 0, part := 0, maxPart := 0);
      StillOnTrack(env, s, it, it2);
      NextDeviceOnTrack(env, s, it2, true);
    }
  }

  lemma TryOnTrack(env: Env, s: Setup, it: Iter)
    requires env.Valid() && env.labels.Some? && Poised(env, it) && OnTrack(env, s, it)
    ensures OnTrack(env, s, Try(env, it).0)
  {
    hide Try, ToCome, BootOrder;
    TryFrame(env, it);
    if !it.doingGlobal { StillOnTrack(env, s, it, Try(env, it).0); }
  }

  lemma StepOnTrack(env: Env, s: Setup, it: Iter)
    requires s.Valid(env) && env.labels.Some? && Ok(env, it) && OnTrack(env, s, it)
    ensures OnTrack(env, s, Step(env, it).0)
  {
    hide IterIncr, Try, OnTrack;
    NeverStuck(env, it);
    IncrementOnTrack(env, s, it);
    if IterIncr(env, it).1 == 0 {
      IncrementPoised(env, it);
      TryOnTrack(env, s, IterIncr(env, it).0);
    }
  }

  lemma FirstIsUsed(env: Env, s: Setup, c: Choice)
    requires s.Valid(env) && s.sel.None? && env.labels.Some? && !env.haveGlobal
    requires c == SetupIter(env, Fresh(env, s)) && c.ret == 0
    ensures UseChoice(env, c) == (SetDev(c.it, Some(c.dev), c.flags), 0)
    ensures Poised(env, SetDev(c.it, Some(c.dev), c.flags))
  {
    hide SetupIter;
  }

  lemma NoneIsOver(env: Env, s: Setup, it: Iter)
    requires s.Valid(env) && env.labels.Some? && it.visits == [] && Reached(BootOrder(env, s)) == []
    requires it.flags == s.flags && !it.doingGlobal && it.dev.None?
    ensures OnTrack(env, s, it) && Over(it)
  {
    hide BootOrder, Reached;
  }

  lemma StartOnTrack(env: Env, s: Setup)
    requires s.Valid(env) && s.sel.None? && env.labels.Some?
    ensures OnTrack(env, s, Start(env, s).0)
    ensures Start(env, s).1.Ended? ==> Over(Start(env, s).0)
  {
    hide SetupIter, Named, Try, RestOfLabel, BootOrder;
    var it := Fresh(env, s);
    if env.haveGlobal {
      TryFrame(env, it);
      TryOnTrack(env, s, it);
    } else {
      var c := SetupIter(env, it);
      SetupIsFirst(env, s, it);
      assert it.visits + Reached(BootOrder(env, s)) == Reached(BootOrder(env, s));
      hide OnTrack, Reached, ChoiceAndRest;
      if c.ret == 0 {
        UseOnTrack(env, s, it, c, BootOrder(env, s));
        var it1 := SetDev(c.it, Some(c.dev), c.flags);
        FirstIsUsed(env, s, c);
        TryFrame(env, it1);
        TryOnTrack(env, s, it1);
      } else {
        NoneIsOver(env, s, c.it);
      }
    }
  }

  lemma RunOnTrack(env: Env, s: Setup, n: nat)
    requires s.Valid(env) && s.sel.None? && env.labels.Some?
    ensures OnTrack(env, s, Run(env, s, n).0)
  {
    hide Step, Start, Run, Ok, OnTrack;
    var p := (it: Iter) => OnTrack(env, s, it);
    StartOnTrack(env, s);
    forall it
      ensures StepKeeps(env, it, p)
    {
      if Ok(env, it) && p(it) { StepOnTrack(env, s, it); }
    }
    RunInvariant(env, s, n, p);
  }

  lemma OrderEnds(env: Env, s: Setup, n: nat)
    requires s.Valid(env) && s.sel.None? && env.labels.Some? && Complete(env, s, n)
    ensures Over(Run(env, s, n).0)
  {
    hide Step, Start, Run, Ok, IterIncr, OnTrack;
    StartOnTrack(env, s);
    if Start(env, s).1.Ended? {
      EndedStartIs(env, s, n);
    } else {
      var m := LastPass(env, s, n);
      var it := Run(env, s, m).0;
      RunOk(env, s, m);
      RunOnTrack(env, s, m);
      StepEnds(env, it);
      IncrementFrame(env, it);
      IncrementOnTrack(env, s, it);
    }
  }

  // ----- What a boot order visits -----

  /** At any time, the bootdevs visited, with their flags, are a beginning of what
      the boot order names. A complete scan visits what comes before the first
      bootdev that does not probe, so all of it if and only if all of them do. */
  lemma LabelOrderVisits(env: Env, s: Setup, n: nat)
    requires s.Valid(env) && s.sel.None? && env.labels.Some?
    ensures Run(env, s, n).0.visits <= Reached(BootOrder(env, s))
    ensures Complete(env, s, n) ==>
              && Run(env, s, n).0.visits == Reached(BootOrder(env, s))
              && (Run(env, s, n).0.visits == Visits(BootOrder(env, s))
                  <==> forall i :: 0 <= i < |BootOrder(env, s)| ==> BootOrder(env, s)[i].probes)
  {
    hide Run, ToCome, BootOrder, Reached;
    RunOnTrack(env, s, n);
    ReachedIsPart(BootOrder(env, s));
    if Complete(env, s, n) { OrderEnds(env, s, n); }
  }

  lemma {:induction false} StopsAre(devs: seq<Dev>, ds: seq<nat>, first: MethFlags, i: nat)
    requires i < |ds|
    ensures |Stops(devs, ds, first)| == |ds|
    ensures Stops(devs, ds, first)[i] == StopAt(devs, ds[i], if i == 0 then first else UclassFlags)
    decreases |ds|
  {
    if i > 0 {
      StopsAre(devs, ds[1..], UclassFlags, i - 1);
    } else if |ds| > 1 {
      StopsAre(devs, ds[1..], UclassFlags, 0);
    }
  }

  /** A label's special handling reaches all its bootdevs if and only if it has
      none, or names at most one bootdev. */
  lemma HandlingKeptIff(devs: seq<Dev>, l: Label)
    ensures |LabelStops(devs, l)| == |LabelDevs(devs, l)|
    ensures (forall i :: 0 <= i < |LabelStops(devs, l)| ==> LabelStops(devs, l)[i].visit.flags.special == l.special)
            <==> l.special == 0 || |LabelDevs(devs, l)| <= 1
  {
    var ds := LabelDevs(devs, l);
    forall i | 0 <= i < |ds|
      ensures |LabelStops(devs, l)| == |ds|
      ensures LabelStops(devs, l)[i] == StopAt(devs, ds[i], if i == 0 then LabelFlags(l) else UclassFlags)
    {
      StopsAre(devs, ds, LabelFlags(l), i);
    }
    if |ds| > 1 { assert LabelStops(devs, l)[1].visit.flags.special == 0; }
  }
}
