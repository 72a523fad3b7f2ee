/**
 * The rate-limiting group protocol, as a state machine over the steps of its threads.
 * One direction (reading) is modelled; writing runs the same code on its own flags.
 *
 * Group locks nest inside bufferevent locks, so a thread that holds a group lock only tries
 * the locks of the members, and remembers in `pending` that a member could not be resumed.
 */
module GroupLimit {
  import opened Bytes
  import opened Counting
  import opened Options

  /** A bufferevent: who holds its lock, its group, its BEV_SUSPEND_BW_GROUP bit, and
      whether it was taken out of its group for good when it was freed. */
  datatype Bev = Bev(owner: Option<nat>, group: Option<nat>, flag: bool, gone: bool)

  datatype Group = Group(owner: Option<nat>, members: seq<nat>, suspended: bool, pending: bool, limit: int,
      minShare: nat)

  /** What a thread is in the middle of.  Suspending and Resuming hold the lock of group g;
      Joining and Leaving hold only the lock of b, having released that of the group. */
  datatype Pc =
    | Idle
    | Suspending(g: nat, rest: seq<nat>)
    | Resuming(g: nat, rest: seq<nat>, again: bool)
    | Joining(b: nat, mustSuspend: bool)
    | Leaving(b: nat, unsuspend: bool)

  datatype Step =
    | Lock(b: nat)
    | Unlock(b: nat)
    | Debit(b: nat, to: int, first: nat)
    | Manual(g: nat, to: int, first: nat)
    | Refill(g: nat, to: int, first: nat)
    | Configure(g: nat, maximum: nat, share: nat)
    | Share(g: nat, share: nat)
    | Visit
    | Finish
    | GetMax(b: nat)
    | Join(b: nat, g: nat)
    | JoinEnd
    | Leave(b: nat, unsuspend: bool)
    | LeaveEnd

  /** Start at index first and wrap around. */
  function Order(members: seq<nat>, first: nat): (order: seq<nat>)
    requires members == [] || first < |members|
    ensures multiset(order) == multiset(members)
    ensures forall x :: x in order <==> x in members
  {
    assert members != [] ==> members == members[..first] + members[first..];
    if members == [] then [] else members[first..] + members[..first]
  }

  datatype State = State(bevs: seq<Bev>, groups: seq<Group>, pcs: seq<Pc>) {

    predicate Unlocked(g: nat) {
      g < |groups| && groups[g].owner == None
    }

    predicate Holds(t: nat, b: nat) {
      b < |bevs| && bevs[b].owner == Some(t)
    }

    /** A bufferevent lock is recursive: a thread that holds it can take it again. */
    predicate CanTry(t: nat, b: nat)
      requires b < |bevs|
    {
      bevs[b].owner == None || bevs[b].owner == Some(t)
    }

    /** The group can be locked, and first is a place in its list if that is not empty. */
    predicate CanPass(g: nat, first: nat) {
      Unlocked(g) && (groups[g].members == [] || first < |groups[g].members|)
    }

    predicate Enabled(t: nat, step: Step) {
      t < |pcs| &&
      match step
      case Lock(b) => pcs[t].Idle? && b < |bevs| && bevs[b].owner == None
      case Unlock(b) => pcs[t].Idle? && Holds(t, b)
      case Debit(b, _, first) => pcs[t].Idle? && Holds(t, b) && bevs[b].group.Some? &&
           CanPass(bevs[b].group.value, first)
      case Manual(g, _, first) => pcs[t].Idle? && CanPass(g, first)
      case Refill(g, _, first) => pcs[t].Idle? && CanPass(g, first)
      case Configure(g, maximum, _) => pcs[t].Idle? && Unlocked(g) && maximum > 0
      case Share(g, _) => pcs[t].Idle? && g < |groups|
      case Visit =>
        && (pcs[t].Suspending? || pcs[t].Resuming?) && pcs[t].rest != [] && pcs[t].rest[0] < |bevs|
      case Finish => (pcs[t].Suspending? || pcs[t].Resuming?) && pcs[t].rest == [] && pcs[t].g < |groups|
      case GetMax(b) => pcs[t].Idle? && Holds(t, b) && bevs[b].group.Some? && Unlocked(bevs[b].group.value)
      case Join(b, g) => pcs[t].Idle? && Holds(t, b) && bevs[b].group == None && !bevs[b].gone && Unlocked(g)
      case JoinEnd => pcs[t].Joining? && pcs[t].b < |bevs|
      case Leave(b, _) =>
        && pcs[t].Idle? && Holds(t, b) && !bevs[b].gone
        && (bevs[b].group.Some? ==> Unlocked(bevs[b].group.value))
      case LeaveEnd => pcs[t].Leaving? && pcs[t].b < |bevs|
    }

    function SetBev(b: nat, v: Bev): State
      requires b < |bevs|
    {
      this.(bevs := bevs[b := v])
    }

    function SetGroup(g: nat, v: Group): State
      requires g < |groups|
    {
      this.(groups := groups[g := v])
    }

    function SetPc(t: nat, pc: Pc): State
      requires t < |pcs|
    {
      this.(pcs := pcs[t := pc])
    }

    function SetLimit(g: nat, to: int): State
      requires g < |groups|
    {
      SetGroup(g, groups[g].(limit := to))
    }

    function SetShare(g: nat, share: nat): State
      requires g < |groups|
    {
      SetGroup(g, groups[g].(minShare := share))
    }

    /** bev_group_suspend_reading_, up to its loop. */
    function StartSuspend(t: nat, g: nat): State
      requires t < |pcs| && g < |groups|
    {
      SetGroup(g, groups[g].(suspended := true, pending := false, owner := Some(t)))
      .SetPc(t, Suspending(g, groups[g].members))
    }

    /** bev_group_unsuspend_reading_, up to its loops. */
    function StartResume(t: nat, g: nat, first: nat): State
      requires t < |pcs| && g < |groups| && (groups[g].members == [] || first < |groups[g].members|)
    {
      SetGroup(g, groups[g].(suspended := false, owner := Some(t)))
      .SetPc(t, Resuming(g, Order(groups[g].members, first), false))
    }

    function VisitNext(t: nat): State
      requires Enabled(t, Visit)
    {
      var pc, b := pcs[t], pcs[t].rest[0];
      if pc.Suspending? then
        (if CanTry(t, b) then SetBev(b, bevs[b].(flag := true)) else this).SetPc(t, Suspending(pc.g, pc.rest[1..]))
      else if CanTry(t, b) then
        SetBev(b, bevs[b].(flag := false)).SetPc(t, Resuming(pc.g, pc.rest[1..], pc.again))
      else
        SetPc(t, Resuming(pc.g, pc.rest[1..], true))
    }

    function Apply(t: nat, step: Step): State
      requires Enabled(t, step)
    {
      match step
      case Lock(b) => SetBev(b, bevs[b].(owner := Some(t)))
      case Unlock(b) => SetBev(b, bevs[b].(owner := None))
      case Debit(b, to, first) =>
        var g := bevs[b].group.value;
        var s := SetLimit(g, to);
        if to <= 0 then s.StartSuspend(t, g)
        else if groups[g].suspended then s.StartResume(t, g, first)
        else s
      case Manual(g, to, first) =>
        var s := SetLimit(g, to);
        if groups[g].limit > 0 && to <= 0 then s.StartSuspend(t, g)
        else if groups[g].limit <= 0 && to > 0 then s.StartResume(t, g, first)
        else s
      case Refill(g, to, first) =>
        var s := SetLimit(g, to);
        if groups[g].pending || (groups[g].suspended && to >= groups[g].minShare) then s.StartResume(t, g, first) else s
      case Configure(g, maximum, share) => SetLimit(g, Min(groups[g].limit, maximum)).SetShare(g, share)
      case Share(g, share) => SetShare(g, share)
      case Visit => VisitNext(t)
      case Finish =>
        var g := pcs[t].g;
        var done := groups[g].(owner := None);
        SetGroup(g, if pcs[t].Resuming? then done.(pending := pcs[t].again) else done).SetPc(t, Idle)
      case GetMax(b) =>
        if groups[bevs[b].group.value].suspended then SetBev(b, bevs[b].(flag := true)) else this
      case Join(b, g) =>
        SetBev(b, bevs[b].(group := Some(g)))
        .SetGroup(g, groups[g].(members := [b] + groups[g].members))
        .SetPc(t, Joining(b, groups[g].suspended))
      case JoinEnd =>
        var b := pcs[t].b;
        (if pcs[t].mustSuspend then SetBev(b, bevs[b].(flag := true)) else this).SetPc(t, Idle)
      case Leave(b, unsuspend) =>
        (if bevs[b].group == None then this
         else
           var g := bevs[b].group.value;
           SetBev(b, bevs[b].(group := None)).SetGroup(g, groups[g].(members := Without(groups[g].members, b))))
        .SetPc(t, Leaving(b, unsuspend))
      case LeaveEnd =>
        var b := pcs[t].b;
        SetBev(b, if pcs[t].unsuspend then bevs[b].(flag := false) else bevs[b].(gone := true)).SetPc(t, Idle)
    }

    // ---------- The invariant ----------

    ghost predicate InLoop(t: nat, g: nat) {
      t < |pcs| && (pcs[t].Suspending? || pcs[t].Resuming?) && pcs[t].g == g
    }

    ghost predicate AboutToLeave(b: nat)
      requires b < |bevs|
    {
      bevs[b].owner.Some? && bevs[b].owner.value < |pcs| &&
      pcs[bevs[b].owner.value].Leaving? && pcs[bevs[b].owner.value].b == b
    }

    /** The bit is set, or a thread that joined the group is about to set it. */
    ghost predicate Marked(b: nat)
      requires b < |bevs|
    {
      bevs[b].flag ||
      (bevs[b].owner.Some? && bevs[b].owner.value < |pcs| && pcs[bevs[b].owner.value] == Joining(b, true))
    }

    /** Member b of group g will be resumed: by the loop that is resuming the group, if there is one,
        unless that asks for another pass; otherwise by the next pass, which the group waits for. */
    ghost predicate ToBeResumed(g: nat, b: nat)
      requires g < |groups|
    {
      if groups[g].owner.Some? && groups[g].owner.value < |pcs| && pcs[groups[g].owner.value].Resuming? then
        var pc := pcs[groups[g].owner.value]; pc.again || b in pc.rest
      else
        groups[g].suspended || groups[g].pending
    }

    /** A member is in the list of its group, and not stranded: if it has or is about to get the bit, it
        will be looked at again.  Elsewhere the bit is set only until its owner clears it, or for good. */
    ghost predicate BevOk(b: nat)
      requires b < |bevs|
    {
      if bevs[b].group.Some? then
        var g := bevs[b].group.value;
        && g < |groups| && b in groups[g].members && !bevs[b].gone
        && (Marked(b) ==> ToBeResumed(g, b))
      else
        bevs[b].flag ==> bevs[b].gone || AboutToLeave(b)
    }

    /** The list of a group are the bufferevents that name it; its lock is held by the thread in a loop
        over them. */
    ghost predicate GroupOk(g: nat)
      requires g < |groups|
    {
      && (forall b :: b in groups[g].members ==> b < |bevs| && bevs[b].group == Some(g))
      && NoDup(groups[g].members)
      && (groups[g].owner.Some? ==> InLoop(groups[g].owner.value, g))
      && !(groups[g].suspended && groups[g].pending)
    }

    /** When the group is exhausted it is suspended, unless its smallest share is zero. */
    predicate Checked(g: nat)
      requires g < |groups|
    {
      groups[g].limit <= 0 && groups[g].minShare > 0 ==> groups[g].suspended
    }

    ghost predicate ThreadOk(t: nat)
      requires t < |pcs|
    {
      match pcs[t]
      case Idle => true
      case Suspending(g, rest) =>
        g < |groups| && groups[g].owner == Some(t) && groups[g].suspended &&
        forall b :: b in rest ==> b in groups[g].members
      case Resuming(g, rest, _) =>
        g < |groups| && groups[g].owner == Some(t) && !groups[g].suspended &&
        forall b :: b in rest ==> b in groups[g].members
      case Joining(b, _) => Holds(t, b) && bevs[b].group.Some?
      case Leaving(b, _) => Holds(t, b) && bevs[b].group == None && !bevs[b].gone
    }

    ghost predicate Inv() {
      && (forall b :: 0 <= b < |bevs| ==> BevOk(b))
      && (forall g :: 0 <= g < |groups| ==> GroupOk(g))
      && (forall t :: 0 <= t < |pcs| ==> ThreadOk(t))
    }
  }

  /** What the invariant says around the bufferevent b, for the thread t. */
  lemma AroundBev(s: State, t: nat, b: nat)
    requires s.Inv() && t < |s.pcs| && b < |s.bevs|
    ensures s.ThreadOk(t) && s.BevOk(b)
    ensures s.pcs[t].Suspending? || s.pcs[t].Resuming? ==> s.pcs[t].g < |s.groups| && s.GroupOk(s.pcs[t].g)
    ensures s.bevs[b].owner.Some? && s.bevs[b].owner.value < |s.pcs| ==> s.ThreadOk(s.bevs[b].owner.value)
    ensures s.bevs[b].group.Some? ==> var g := s.bevs[b].group.value;
              && g < |s.groups| && s.GroupOk(g)
              && (s.groups[g].owner.Some? ==> s.groups[g].owner.value < |s.pcs| && s.ThreadOk(s.groups[g].owner.value))
  {
    assert s.BevOk(b) && s.ThreadOk(t);
    if s.bevs[b].group.Some? { assert s.GroupOk(s.bevs[b].group.value); }
  }

  lemma AroundGroup(s: State, t: nat, g: nat)
    requires s.Inv() && t < |s.pcs| && g < |s.groups|
    ensures s.ThreadOk(t) && s.GroupOk(g)
    ensures s.groups[g].owner.Some? ==> s.groups[g].owner.value < |s.pcs| && s.ThreadOk(s.groups[g].owner.value)
  {
    assert s.GroupOk(g);
  }

  lemma AroundThread(s: State, t: nat, x: nat)
    requires s.Inv() && t < |s.pcs| && x < |s.pcs|
    ensures s.ThreadOk(t) && s.ThreadOk(x)
    ensures s.pcs[x].Suspending? || s.pcs[x].Resuming? ==> s.pcs[x].g < |s.groups| && s.GroupOk(s.pcs[x].g)
    ensures s.pcs[x].Joining? || s.pcs[x].Leaving? ==> s.pcs[x].b < |s.bevs| && s.BevOk(s.pcs[x].b)
  {
    assert s.ThreadOk(x);
  }

  lemma LockBev(s: State, t: nat, step: Step, x: nat)
    requires s.Inv() && s.Enabled(t, step) && x < |s.bevs|
    requires step.Lock? || step.Unlock?
    ensures s.Apply(t, step).BevOk(x)
  {
    hide Order, Without, NoDup;
    AroundBev(s, t, x);
  }

  lemma EndBev(s: State, t: nat, step: Step, x: nat)
    requires s.Inv() && s.Enabled(t, step) && x < |s.bevs|
    requires step.GetMax? || step.JoinEnd? || step.LeaveEnd?
    ensures s.Apply(t, step).BevOk(x)
  {
    hide Order, Without, NoDup;
    AroundBev(s, t, x);
  }

  lemma LightBev(s: State, t: nat, step: Step, x: nat)
    requires s.Inv() && s.Enabled(t, step) && x < |s.bevs|
    requires step.Lock? || step.Unlock? || step.GetMax? || step.JoinEnd? || step.LeaveEnd?
    ensures s.Apply(t, step).BevOk(x)
  {
    hide State.Inv, State.Enabled, State.Apply, State.BevOk, State.GroupOk;
    if step.Lock? || step.Unlock? { LockBev(s, t, step, x); } else { EndBev(s, t, step, x); }
  }

  lemma LightGroup(s: State, t: nat, step: Step, x: nat)
    requires s.Inv() && s.Enabled(t, step) && x < |s.groups|
    requires step.Lock? || step.Unlock? || step.GetMax? || step.JoinEnd? || step.LeaveEnd?
    ensures s.Apply(t, step).GroupOk(x)
  {
    hide Order, Without, NoDup;
    AroundGroup(s, t, x);
  }

  lemma LightThread(s: State, t: nat, step: Step, x: nat)
    requires s.Inv() && s.Enabled(t, step) && x < |s.pcs|
    requires step.Lock? || step.Unlock? || step.GetMax? || step.JoinEnd? || step.LeaveEnd?
    ensures s.Apply(t, step).ThreadOk(x)
  {
    hide Order, Without, NoDup;
    AroundThread(s, t, x);
  }

  /** Neither the limit nor the smallest share matter to the invariant. */
  lemma SettingInv(s: State, g: nat, limit: int, share: nat)
    requires s.Inv() && g < |s.groups|
    ensures s.SetLimit(g, limit).Inv() && s.SetShare(g, share).Inv()
  {
    hide NoDup;
    SameBut(s, s.SetLimit(g, limit), g);
    SameBut(s, s.SetShare(g, share), g);
  }

  lemma SameBut(s: State, n: State, g: nat)
    requires s.Inv() && g < |s.groups| == |n.groups| && n.bevs == s.bevs && n.pcs == s.pcs
    requires n.groups == s.groups[g := s.groups[g].(limit := n.groups[g].limit, minShare := n.groups[g].minShare)]
    ensures n.Inv()
  {
    hide NoDup;
    forall x | 0 <= x < |n.bevs|
      ensures n.BevOk(x)
    {
      assert s.BevOk(x);
    }
    forall x | 0 <= x < |n.groups|
      ensures n.GroupOk(x)
    {
      assert s.GroupOk(x);
    }
    forall x | 0 <= x < |n.pcs|
      ensures n.ThreadOk(x)
    {
      assert s.ThreadOk(x);
    }
  }

  lemma SuspendBev(s: State, t: nat, g: nat, x: nat)
    requires s.Inv() && t < |s.pcs| && s.pcs[t].Idle? && s.Unlocked(g) && x < |s.bevs|
    ensures s.StartSuspend(t, g).BevOk(x)
  {
    hide Order, Without, NoDup;
    AroundBev(s, t, x);
  }

  lemma SuspendGroup(s: State, t: nat, g: nat, x: nat)
    requires s.Inv() && t < |s.pcs| && s.pcs[t].Idle? && s.Unlocked(g) && x < |s.groups|
    ensures s.StartSuspend(t, g).GroupOk(x)
  {
    hide Order, Without, NoDup;
    AroundGroup(s, t, x);
  }

  lemma SuspendThread(s: State, t: nat, g: nat, x: nat)
    requires s.Inv() && t < |s.pcs| && s.pcs[t].Idle? && s.Unlocked(g) && x < |s.pcs|
    ensures s.StartSuspend(t, g).ThreadOk(x)
  {
    hide Order, Without, NoDup;
    AroundThread(s, t, x);
  }

  /** When a pass that suspends begins, every member is still covered. */
  lemma SuspendInv(s: State, t: nat, g: nat)
    requires s.Inv() && t < |s.pcs| && s.pcs[t].Idle? && s.Unlocked(g)
    ensures s.StartSuspend(t, g).Inv()
  {
    hide State.BevOk, State.GroupOk, State.ThreadOk, State.StartSuspend;
    var n := s.StartSuspend(t, g);
    StartSizes(s, t, g, 0);
    forall x | 0 <= x < |n.bevs| ensures n.BevOk(x) { SuspendBev(s, t, g, x); }
    forall x | 0 <= x < |n.groups| ensures n.GroupOk(x) { SuspendGroup(s, t, g, x); }
    forall x | 0 <= x < |n.pcs| ensures n.ThreadOk(x) { SuspendThread(s, t, g, x); }
  }

  lemma StartSizes(s: State, t: nat, g: nat, first: nat)
    requires t < |s.pcs| && g < |s.groups|
    ensures var n := s.StartSuspend(t, g); |n.bevs| == |s.bevs| && |n.groups| == |s.groups| && |n.pcs| == |s.pcs|
    ensures s.CanPass(g, first) ==>
              var n := s.StartResume(t, g, first);
              |n.bevs| == |s.bevs| && |n.groups| == |s.groups| && |n.pcs| == |s.pcs|
  {
  }

  lemma ResumeBev(s: State, t: nat, g: nat, first: nat, x: nat)
    requires s.Inv() && t < |s.pcs| && s.pcs[t].Idle? && s.CanPass(g, first) && x < |s.bevs|
    ensures s.StartResume(t, g, first).BevOk(x)
  {
    hide Order, Without, NoDup;
    AroundBev(s, t, x);
  }

  lemma ResumeGroup(s: State, t: nat, g: nat, first: nat, x: nat)
    requires s.Inv() && t < |s.pcs| && s.pcs[t].Idle? && s.CanPass(g, first) && x < |s.groups|
    ensures s.StartResume(t, g, first).GroupOk(x)
  {
    hide Order, Without, NoDup;
    AroundGroup(s, t, x);
  }

  lemma ResumeThread(s: State, t: nat, g: nat, first: nat, x: nat)
    requires s.Inv() && t < |s.pcs| && s.pcs[t].Idle? && s.CanPass(g, first) && x < |s.pcs|
    ensures s.StartResume(t, g, first).ThreadOk(x)
  {
    hide Order, Without, NoDup;
    AroundThread(s, t, x);
  }

  /** When a pass that resumes begins, it covers every member. */
  lemma ResumeInv(s: State, t: nat, g: nat, first: nat)
    requires s.Inv() && t < |s.pcs| && s.pcs[t].Idle? && s.CanPass(g, first)
    ensures s.StartResume(t, g, first).Inv()
  {
    hide State.BevOk, State.GroupOk, State.ThreadOk, State.StartResume;
    var n := s.StartResume(t, g, first);
    StartSizes(s, t, g, first);
    forall x | 0 <= x < |n.bevs| ensures n.BevOk(x) { ResumeBev(s, t, g, first, x); }
    forall x | 0 <= x < |n.groups| ensures n.GroupOk(x) { ResumeGroup(s, t, g, first, x); }
    forall x | 0 <= x < |n.pcs| ensures n.ThreadOk(x) { ResumeThread(s, t, g, first, x); }
  }

  predicate OnGroup(step: Step) {
    step.Debit? || step.Manual? || step.Refill? || step.Configure? || step.Share?
  }

  /** The steps on the limits of a group, some of which begin a pass. */
  lemma GroupStepInv(s: State, t: nat, step: Step)
    requires s.Inv() && s.Enabled(t, step) && OnGroup(step)
    ensures s.Apply(t, step).Inv()
  {
    hide State.Inv, State.StartSuspend, State.StartResume, Order;
    match step
    case Debit(b, to, first) => PassInv(s, t, s.bevs[b].group.value, to, first);
    case Manual(g, to, first) => PassInv(s, t, g, to, first);
    case Refill(g, to, first) => PassInv(s, t, g, to, first);
    case Configure(g, maximum, share) =>
      SettingInv(s, g, Min(s.groups[g].limit, maximum), 0);
      SettingInv(s.SetLimit(g, Min(s.groups[g].limit, maximum)), g, 0, share);
    case Share(g, share) => SettingInv(s, g, 0, share);
    case _ =>
  }

  /** The limit is set, and then a pass may begin. */
  lemma PassInv(s: State, t: nat, g: nat, to: int, first: nat)
    requires s.Inv() && t < |s.pcs| && s.pcs[t].Idle? && s.CanPass(g, first)
    ensures var n := s.SetLimit(g, to);
            n.Inv() && n.CanPass(g, first) && n.StartSuspend(t, g).Inv() && n.StartResume(t, g, first).Inv()
  {
    hide State.Inv, State.StartSuspend, State.StartResume, Order;
    SettingInv(s, g, to, 0);
    SuspendInv(s.SetLimit(g, to), t, g);
    ResumeInv(s.SetLimit(g, to), t, g, first);
  }

  lemma VisitToSuspend(s: State, t: nat, step: Step, x: nat)
    requires s.Inv() && s.Enabled(t, step) && x < |s.bevs|
    requires step.Visit? && s.pcs[t].Suspending?
    ensures s.Apply(t, step).BevOk(x)
  {
    hide Order, Without, NoDup;
    AroundBev(s, t, x);
  }

  lemma VisitToResume(s: State, t: nat, step: Step, x: nat)
    requires s.Inv() && s.Enabled(t, step) && x < |s.bevs|
    requires step.Visit? && s.pcs[t].Resuming?
    ensures s.Apply(t, step).BevOk(x)
  {
    hide Order, Without, NoDup;
    AroundBev(s, t, x);
  }

  lemma VisitBev(s: State, t: nat, step: Step, x: nat)
    requires s.Inv() && s.Enabled(t, step) && x < |s.bevs|
    requires step.Visit?
    ensures s.Apply(t, step).BevOk(x)
  {
    hide State.Inv, State.Apply, State.BevOk, State.GroupOk;
    if s.pcs[t].Suspending? { VisitToSuspend(s, t, step, x); } else { VisitToResume(s, t, step, x); }
  }

  lemma FinishBev(s: State, t: nat, step: Step, x: nat)
    requires s.Inv() && s.Enabled(t, step) && x < |s.bevs|
    requires step.Finish?
    ensures s.Apply(t, step).BevOk(x)
  {
    hide Order, Without, NoDup;
    AroundBev(s, t, x);
  }

  lemma LoopBev(s: State, t: nat, step: Step, x: nat)
    requires s.Inv() && s.Enabled(t, step) && x < |s.bevs|
    requires step.Visit? || step.Finish?
    ensures s.Apply(t, step).BevOk(x)
  {
    hide State.Inv, State.Enabled, State.Apply, State.BevOk, State.GroupOk;
    if step.Visit? { VisitBev(s, t, step, x); } else { FinishBev(s, t, step, x); }
  }

  lemma LoopGroup(s: State, t: nat, step: Step, x: nat)
    requires s.Inv() && s.Enabled(t, step) && x < |s.groups|
    requires step.Visit? || step.Finish?
    ensures s.Apply(t, step).GroupOk(x)
  {
    hide Order, Without, NoDup;
    AroundGroup(s, t, x);
  }

  lemma LoopThread(s: State, t: nat, step: Step, x: nat)
    requires s.Inv() && s.Enabled(t, step) && x < |s.pcs|
    requires step.Visit? || step.Finish?
    ensures s.Apply(t, step).ThreadOk(x)
  {
    hide Order, Without, NoDup;
    AroundThread(s, t, x);
  }

  lemma JoinBev(s: State, t: nat, step: Step, x: nat)
    requires s.Inv() && s.Enabled(t, step) && x < |s.bevs|
    requires step.Join?
    ensures s.Apply(t, step).BevOk(x)
  {
    hide Order, Without;
    AroundBev(s, t, x);
  }

  lemma LeaveBev(s: State, t: nat, step: Step, x: nat)
    requires s.Inv() && s.Enabled(t, step) && x < |s.bevs|
    requires step.Leave?
    ensures s.Apply(t, step).BevOk(x)
  {
    hide Order, Without;
    AroundBev(s, t, x);
  }

  lemma MemberBev(s: State, t: nat, step: Step, x: nat)
    requires s.Inv() && s.Enabled(t, step) && x < |s.bevs|
    requires step.Join? || step.Leave?
    ensures s.Apply(t, step).BevOk(x)
  {
    hide State.Inv, State.Enabled, State.Apply, State.BevOk, State.GroupOk;
    if step.Join? { JoinBev(s, t, step, x); } else { LeaveBev(s, t, step, x); }
  }

  lemma JoinGroup(s: State, t: nat, step: Step, x: nat)
    requires s.Inv() && s.Enabled(t, step) && x < |s.groups|
    requires step.Join?
    ensures s.Apply(t, step).GroupOk(x)
  {
    hide Order, Without;
    AroundGroup(s, t, x);
  }

  lemma LeaveGroup(s: State, t: nat, step: Step, x: nat)
    requires s.Inv() && s.Enabled(t, step) && x < |s.groups|
    requires step.Leave?
    ensures s.Apply(t, step).GroupOk(x)
  {
    hide Order, Without;
    AroundGroup(s, t, x);
    WithoutNoDup(s.groups[x].members, step.b);
  }

  lemma MemberGroup(s: State, t: nat, step: Step, x: nat)
    requires s.Inv() && s.Enabled(t, step) && x < |s.groups|
    requires step.Join? || step.Leave?
    ensures s.Apply(t, step).GroupOk(x)
  {
    hide State.Inv, State.Enabled, State.Apply, State.BevOk, State.GroupOk;
    if step.Join? { JoinGroup(s, t, step, x); } else { LeaveGroup(s, t, step, x); }
  }

  lemma MemberThread(s: State, t: nat, step: Step, x: nat)
    requires s.Inv() && s.Enabled(t, step) && x < |s.pcs|
    requires step.Join? || step.Leave?
    ensures s.Apply(t, step).ThreadOk(x)
  {
    hide Order, Without;
    AroundThread(s, t, x);
  }

  lemma SameSizes(s: State, t: nat, step: Step)
    requires s.Enabled(t, step)
    ensures var n := s.Apply(t, step);
            |n.bevs| == |s.bevs| && |n.groups| == |s.groups| && |n.pcs| == |s.pcs| && t < |s.pcs|
  {
  }

  /** The invariant holds after every step. */
  lemma StepInv(s: State, t: nat, step: Step)
    requires s.Inv() && s.Enabled(t, step)
    ensures s.Apply(t, step).Inv()
  {
    hide State.BevOk, State.GroupOk, State.ThreadOk, State.Apply, State.Enabled;
    if OnGroup(step) {
      GroupStepInv(s, t, step);
      return;
    }
    var n := s.Apply(t, step);
    SameSizes(s, t, step);
    forall x | 0 <= x < |n.bevs|
      ensures n.BevOk(x)
    {
      if
      case step.Lock? || step.Unlock? || step.GetMax? || step.JoinEnd? || step.LeaveEnd? => LightBev(s, t, step, x);
      case step.Visit? || step.Finish? => LoopBev(s, t, step, x);
      case step.Join? || step.Leave? => MemberBev(s, t, step, x);
    }
    forall x | 0 <= x < |n.groups|
      ensures n.GroupOk(x)
    {
      if
      case step.Lock? || step.Unlock? || step.GetMax? || step.JoinEnd? || step.LeaveEnd? => LightGroup(s, t, step, x);
      case step.Visit? || step.Finish? => LoopGroup(s, t, step, x);
      case step.Join? || step.Leave? => MemberGroup(s, t, step, x);
    }
    forall x | 0 <= x < |n.pcs|
      ensures n.ThreadOk(x)
    {
      if
      case step.Lock? || step.Unlock? || step.GetMax? || step.JoinEnd? || step.LeaveEnd? => LightThread(s, t, step, x);
      case step.Visit? || step.Finish? => LoopThread(s, t, step, x);
      case step.Join? || step.Leave? => MemberThread(s, t, step, x);
    }
  }

  // ---------- Runs ----------

  datatype Move = Move(thread: nat, step: Step)

  /** The moves can be made one after the other. */
  predicate Legal(s: State, moves: seq<Move>)
    decreases |moves|
  {
    moves == [] ||
    (s.Enabled(moves[0].thread, moves[0].step) && Legal(s.Apply(moves[0].thread, moves[0].step), moves[1..]))
  }

  function After(s: State, moves: seq<Move>): State
    requires Legal(s, moves)
    decreases |moves|
  {
    if moves == [] then s else After(s.Apply(moves[0].thread, moves[0].step), moves[1..])
  }

  /** Nobody is in a group, nothing is locked and no group is exhausted. */
  ghost predicate Initial(s: State) {
    && (forall b :: 0 <= b < |s.bevs| ==> s.bevs[b] == Bev(None, None, false, false))
    && (forall g :: 0 <= g < |s.groups| ==>
                      && s.groups[g].members == [] && s.groups[g].owner == None
                      && !s.groups[g].suspended && !s.groups[g].pending && s.groups[g].limit > 0)
    && (forall t :: 0 <= t < |s.pcs| ==> s.pcs[t] == Idle)
  }

  lemma {:induction false} RunInv(s: State, moves: seq<Move>)
    requires s.Inv() && Legal(s, moves)
    ensures After(s, moves).Inv()
    decreases |moves|
  {
    if moves != [] {
      StepInv(s, moves[0].thread, moves[0].step);
      RunInv(s.Apply(moves[0].thread, moves[0].step), moves[1..]);
    }
  }

  /** In every run, a member with the bit belongs to a group that is suspended or waits for another
      pass, except while a pass is under way that has not reached it or will ask for another. */
  lemma NobodyStranded(s0: State, moves: seq<Move>, b: nat)
    requires Initial(s0) && Legal(s0, moves)
    requires var s := After(s0, moves); b < |s.bevs| && s.bevs[b].group.Some? && s.bevs[b].flag
    ensures var s := After(s0, moves);
            && s.bevs[b].group.value < |s.groups|
            && var g := s.groups[s.bevs[b].group.value];
            || (g.owner == None && (g.suspended || g.pending))
            || (g.owner.Some? && g.owner.value < |s.pcs| &&
                match s.pcs[g.owner.value]
                case Suspending(_, _) => g.suspended
                case Resuming(_, rest, again) => again || b in rest
                case _ => false)
  {
    var s := After(s0, moves);
    RunInv(s0, moves);
    assert s.BevOk(b) && s.GroupOk(s.bevs[b].group.value);
    var g := s.groups[s.bevs[b].group.value];
    if g.owner.Some? {
      assert s.ThreadOk(g.owner.value);
    }
  }

  /** A group in which a member has or is about to get the bit is looked at by the next refill that
      reaches the smallest share, and that pass goes over every member exactly once. */
  lemma RefillResumes(s: State, t: nat, g: nat, to: int, first: nat, b: nat)
    requires s.Inv() && s.Enabled(t, Refill(g, to, first)) && to >= s.groups[g].minShare
    requires b < |s.bevs| && s.bevs[b].group == Some(g) && s.Marked(b)
    ensures var n := s.Apply(t, Refill(g, to, first));
            && n.pcs[t].Resuming? && n.pcs[t].g == g && !n.pcs[t].again
            && multiset(n.pcs[t].rest) == multiset(s.groups[g].members) && NoDup(s.groups[g].members)
  {
    AroundBev(s, t, b);
  }

  /** A pass that met no locked member leaves no member suspended, nor about to be. */
  lemma CleanPass(s: State, t: nat)
    requires s.Inv() && s.Enabled(t, Finish) && s.pcs[t].Resuming? && !s.pcs[t].again
    ensures var n := s.Apply(t, Finish); var g := s.pcs[t].g;
            && !n.groups[g].suspended && !n.groups[g].pending
            && forall b :: 0 <= b < |n.bevs| && n.bevs[b].group == Some(g) ==> !n.Marked(b)
  {
    hide State.GroupOk;
    var n, g := s.Apply(t, Finish), s.pcs[t].g;
    StepInv(s, t, Finish);
    assert s.ThreadOk(t);
    forall b | 0 <= b < |n.bevs| && n.bevs[b].group == Some(g)
      ensures !n.Marked(b)
    {
      assert n.BevOk(b);
    }
  }

  /** The moves of a pass with k members to go. */
  function Sweep(t: nat, k: nat): seq<Move> {
    if k == 0 then [Move(t, Finish)] else [Move(t, Visit)] + Sweep(t, k - 1)
  }

  /** A pass that no other thread gets in the way of resumes the whole group. */
  lemma {:induction false} SweepResumes(s: State, t: nat)
    requires s.Inv() && t < |s.pcs| && s.pcs[t].Resuming? && !s.pcs[t].again
    requires forall b :: b in s.pcs[t].rest ==>
               b < |s.bevs| && (s.bevs[b].owner == None || s.bevs[b].owner == Some(t))
    ensures Legal(s, Sweep(t, |s.pcs[t].rest|))
    ensures var n := After(s, Sweep(t, |s.pcs[t].rest|)); var g := s.pcs[t].g;
            && g < |n.groups| && !n.groups[g].suspended && !n.groups[g].pending && n.groups[g].owner == None
            && forall b :: 0 <= b < |n.bevs| && n.bevs[b].group == Some(g) ==> !n.bevs[b].flag
    decreases |s.pcs[t].rest|
  {
    hide State.GroupOk, State.BevOk;
    assert s.ThreadOk(t);
    var pc := s.pcs[t];
    if pc.rest == [] {
      CleanPass(s, t);
      assert Sweep(t, 0)[1..] == [];
    } else {
      assert pc.rest[0] in pc.rest && forall b :: b in pc.rest[1..] ==> b in pc.rest;
      assert s.CanTry(t, pc.rest[0]);
      StepInv(s, t, Visit);
      SweepResumes(s.Apply(t, Visit), t);
      assert Sweep(t, |pc.rest|)[1..] == Sweep(t, |pc.rest| - 1);
    }
  }

  /** What a thread that is in the middle of something does next. */
  function Next(s: State, t: nat): (step: Step)
    requires t < |s.pcs| && !s.pcs[t].Idle?
  {
    match s.pcs[t]
    case Suspending(_, rest) => if rest == [] then Finish else Visit
    case Resuming(_, rest, _) => if rest == [] then Finish else Visit
    case Joining(_, _) => JoinEnd
    case Leaving(_, _) => LeaveEnd
    case Idle => assert false; Visit
  }

  /** Nobody waits while it holds a lock of a group: whoever is in the middle of something can go on. */
  lemma NobodyBlocked(s: State, t: nat)
    requires s.Inv() && t < |s.pcs| && !s.pcs[t].Idle?
    ensures s.Enabled(t, Next(s, t))
  {
    hide NoDup, State.BevOk;
    assert s.ThreadOk(t);
    if s.pcs[t].Suspending? || s.pcs[t].Resuming? {
      assert s.GroupOk(s.pcs[t].g);
      assert s.pcs[t].rest != [] ==> s.pcs[t].rest[0] in s.pcs[t].rest;
    }
  }

  /** The state after a pass: it did to each member whose lock it could take what it is for, the lock of the group is
      free, and another pass is asked for if this one resumes and could not take a lock. */
  ghost function Passed(s: State, t: nat): State
    requires t < |s.pcs| && (s.pcs[t].Suspending? || s.pcs[t].Resuming?) && s.pcs[t].g < |s.groups|
  {
    var pc, group := s.pcs[t], s.groups[s.pcs[t].g];
    var again := pc.Resuming? && (pc.again || exists b :: b in pc.rest && b < |s.bevs| && !s.CanTry(t, b));
    State(seq(|s.bevs|, b requires 0 <= b < |s.bevs| =>
            if b in pc.rest && s.CanTry(t, b) then s.bevs[b].(flag := pc.Suspending?) else s.bevs[b]),
          s.groups[pc.g := group.(owner := None, pending := if pc.Resuming? then again else group.pending)],
          s.pcs[t := Idle])
  }

  lemma PassedEnd(s: State, t: nat)
    requires s.Enabled(t, Finish)
    ensures s.Apply(t, Finish) == Passed(s, t)
  {
    assert s.pcs[t].rest == [];
    assert s.Apply(t, Finish).bevs == Passed(s, t).bevs;
  }

  lemma PassedStep(s: State, t: nat)
    requires s.Enabled(t, Visit) && s.pcs[t].g < |s.groups|
    ensures var n := s.Apply(t, Visit);
            t < |n.pcs| && (n.pcs[t].Suspending? || n.pcs[t].Resuming?) && n.pcs[t].g < |n.groups| &&
            n.pcs[t].rest == s.pcs[t].rest[1..] && Passed(n, t) == Passed(s, t)
  {
    var n, pc := s.Apply(t, Visit), s.pcs[t];
    assert forall b :: b in pc.rest <==> b == pc.rest[0] || b in pc.rest[1..];
    assert n.pcs[t := Idle] == s.pcs[t := Idle] && n.groups == s.groups;
    assert forall b :: 0 <= b < |s.bevs| ==> n.CanTry(t, b) == s.CanTry(t, b);
    assert Passed(n, t).bevs == Passed(s, t).bevs;
    assert Passed(n, t).groups == Passed(s, t).groups;
  }

  /** A pass ends, whoever holds the locks of the members. */
  lemma {:induction false} PassEnds(s: State, t: nat)
    requires s.Inv() && t < |s.pcs| && (s.pcs[t].Suspending? || s.pcs[t].Resuming?)
    ensures Legal(s, Sweep(t, |s.pcs[t].rest|))
    ensures s.pcs[t].g < |s.groups| && After(s, Sweep(t, |s.pcs[t].rest|)) == Passed(s, t)
    decreases |s.pcs[t].rest|
  {
    hide State.Inv, State.Apply, State.Enabled, Passed;
    NobodyBlocked(s, t);
    AroundThread(s, t, t);
    if s.pcs[t].rest == [] {
      PassedEnd(s, t);
      assert Sweep(t, 0)[1..] == [];
    } else {
      StepInv(s, t, Visit);
      PassedStep(s, t);
      PassEnds(s.Apply(t, Visit), t);
      assert Sweep(t, |s.pcs[t].rest|)[1..] == Sweep(t, |s.pcs[t].rest| - 1);
    }
  }

  /** A suspending pass that no other thread gets in the way of leaves every member with the bit, and clears none. */
  lemma SweepSuspends(s: State, t: nat)
    requires s.Inv() && t < |s.pcs| && s.pcs[t].Suspending?
    requires forall b :: b in s.pcs[t].rest ==>
               b < |s.bevs| && (s.bevs[b].owner == None || s.bevs[b].owner == Some(t))
    ensures Legal(s, Sweep(t, |s.pcs[t].rest|))
    ensures var n := After(s, Sweep(t, |s.pcs[t].rest|)); var g := s.pcs[t].g;
            && |n.bevs| == |s.bevs| && |n.groups| == |s.groups| && g < |n.groups|
            && n.groups[g] == s.groups[g].(owner := None) && n.groups[g].suspended
            && (forall b :: 0 <= b < |n.bevs| ==> n.bevs[b] == s.bevs[b].(flag := n.bevs[b].flag))
            && (forall b :: 0 <= b < |n.bevs| && s.bevs[b].flag ==> n.bevs[b].flag)
            && (forall b :: b in s.pcs[t].rest ==> n.bevs[b].flag)
  {
    hide State.GroupOk, State.BevOk, Order, Without, NoDup;
    assert s.ThreadOk(t);
    PassEnds(s, t);
  }

  /** The group whose limit a step sets. */
  function Aim(s: State, step: Step): nat
    requires step.Debit? ==> step.b < |s.bevs| && s.bevs[step.b].group.Some?
    requires step.Debit? || step.Manual? || step.Refill? || step.Configure? || step.Share?
  {
    if step.Debit? then s.bevs[step.b].group.value else step.g
  }

  /** A debit suspends whenever the group is exhausted, a manual decrement when it becomes so. */
  predicate Exhausts(s: State, step: Step, g: nat)
    requires g < |s.groups|
  {
    (step.Debit? && step.to <= 0) || (step.Manual? && s.groups[g].limit > 0 && step.to <= 0)
  }

  /** A debit resumes whatever it leaves suspended with credit, a manual decrement what gets credit again, a refill
      what waits for a pass or has the smallest share. */
  predicate Relieves(s: State, step: Step, g: nat)
    requires g < |s.groups|
  {
    var group := s.groups[g];
    || (step.Debit? && step.to > 0 && group.suspended)
    || (step.Manual? && group.limit <= 0 && step.to > 0)
    || (step.Refill? && (group.pending || (group.suspended && step.to >= group.minShare)))
  }

  /** What becomes of the limit, and when a pass over which members begins. */
  lemma PassBegins(s: State, t: nat, step: Step)
    requires s.Enabled(t, step) && (step.Debit? || step.Manual? || step.Refill?)
    ensures var g, n := Aim(s, step), s.Apply(t, step);
            && g < |s.groups| && n.bevs == s.bevs && n.groups[g].limit == step.to
            && (Exhausts(s, step, g) ==>
                  n.pcs[t] == Suspending(g, s.groups[g].members) && n.groups[g].suspended && !n.groups[g].pending)
            && (Relieves(s, step, g) ==>
                  n.pcs[t].Resuming? && n.pcs[t].g == g && !n.pcs[t].again && !n.groups[g].suspended &&
                  multiset(n.pcs[t].rest) == multiset(s.groups[g].members))
            && (!Exhausts(s, step, g) && !Relieves(s, step, g) ==>
                  n.pcs == s.pcs && n.groups == s.groups[g := s.groups[g].(limit := step.to)])
  {
  }

  /** A new configuration clips the limit, and like a new smallest share begins no pass. */
  lemma Configured(s: State, t: nat, step: Step)
    requires s.Enabled(t, step) && (step.Configure? || step.Share?)
    ensures var g, n := step.g, s.Apply(t, step);
            && g < |s.groups| && n.bevs == s.bevs && n.pcs == s.pcs
            && n.groups == s.groups[g := s.groups[g].(limit := n.groups[g].limit, minShare := step.share)]
            && (step.Share? ==> n.groups[g].limit == s.groups[g].limit)
            && (step.Configure? ==>
                  n.groups[g].limit <= step.maximum && n.groups[g].limit <= s.groups[g].limit &&
                  (n.groups[g].limit == step.maximum || n.groups[g].limit == s.groups[g].limit))
  {
  }

  /** When a debit or a decrement exhausts the group and nobody gets in the way, every member is suspended. */
  lemma AllSuspended(s: State, t: nat, step: Step)
    requires s.Inv() && s.Enabled(t, step) && (step.Debit? || step.Manual?)
    requires var g := Aim(s, step);
             g < |s.groups| && Exhausts(s, step, g) &&
             forall b :: b in s.groups[g].members ==>
                           b < |s.bevs| && (s.bevs[b].owner == None || s.bevs[b].owner == Some(t))
    ensures var g := Aim(s, step); var moves := [Move(t, step)] + Sweep(t, |s.groups[g].members|);
            && Legal(s, moves)
            && var n := After(s, moves);
               && g < |n.groups| && n.groups[g].suspended && n.groups[g].owner == None
               && n.groups[g].members == s.groups[g].members
               && forall b :: b in n.groups[g].members ==> b < |n.bevs| && n.bevs[b].flag
  {
    hide State.Inv, State.Apply;
    var g, n := Aim(s, step), s.Apply(t, step);
    SameSizes(s, t, step);
    PassBegins(s, t, step);
    StepInv(s, t, step);
    SameMembers(s, t, step);
    assert forall b :: b in n.pcs[t].rest ==> b < |n.bevs| && n.CanTry(t, b);
    SweepSuspends(n, t);
    assert ([Move(t, step)] + Sweep(t, |s.groups[g].members|))[1..] == Sweep(t, |s.groups[g].members|);
  }

  lemma SameMembers(s: State, t: nat, step: Step)
    requires s.Enabled(t, step) && (step.Debit? || step.Manual? || step.Refill?)
    ensures var g, n := Aim(s, step), s.Apply(t, step);
            g < |s.groups| == |n.groups| && n.groups[g].members == s.groups[g].members
  {
  }

  // ---------- Members that are late ----------

  /** A thread stays where it is while the others go on. */
  lemma {:induction false} OthersGoOn(s: State, moves: seq<Move>, t: nat)
    requires Legal(s, moves) && t < |s.pcs| && forall i :: 0 <= i < |moves| ==> moves[i].thread != t
    ensures var n := After(s, moves); |n.pcs| == |s.pcs| && |n.bevs| == |s.bevs| && n.pcs[t] == s.pcs[t]
    decreases |moves|
  {
    hide State.Apply, State.Enabled;
    if moves != [] {
      SameSizes(s, moves[0].thread, moves[0].step);
      OtherPc(s, moves[0].thread, moves[0].step, t);
      OthersGoOn(s.Apply(moves[0].thread, moves[0].step), moves[1..], t);
    }
  }

  lemma OtherPc(s: State, t: nat, step: Step, x: nat)
    requires s.Enabled(t, step) && x < |s.pcs| && x != t
    ensures var n := s.Apply(t, step); x < |n.pcs| && n.pcs[x] == s.pcs[x]
  {
  }

  /** Who joins a suspended group has the bit when it is in, whatever the others do meanwhile; who joins another
      one does not get it by that. */
  lemma JoinSuspends(s: State, t: nat, b: nat, g: nat, moves: seq<Move>)
    requires s.Enabled(t, Join(b, g)) && Legal(s.Apply(t, Join(b, g)), moves)
    requires forall i :: 0 <= i < |moves| ==> moves[i].thread != t
    ensures var n := After(s.Apply(t, Join(b, g)), moves);
            && n.Enabled(t, JoinEnd) && b < |n.bevs| && b < |n.Apply(t, JoinEnd).bevs|
            && (n.Apply(t, JoinEnd).bevs[b].flag <==> s.groups[g].suspended || n.bevs[b].flag)
  {
    SameSizes(s, t, Join(b, g));
    OthersGoOn(s.Apply(t, Join(b, g)), moves, t);
  }

  /** Who asks for its share in a suspended group gets the bit; nobody else does. */
  lemma AskingSuspends(s: State, t: nat, b: nat)
    requires s.Enabled(t, GetMax(b))
    ensures var n := s.Apply(t, GetMax(b));
            && n.groups == s.groups && n.pcs == s.pcs && |n.bevs| == |s.bevs| && b < |s.bevs|
            && (n.bevs[b].flag <==> s.groups[s.bevs[b].group.value].suspended || s.bevs[b].flag)
            && n.bevs == s.bevs[b := s.bevs[b].(flag := n.bevs[b].flag)]
  {
  }

  /** Who leaves and asks for it does not have the bit when it is out, whatever the others do meanwhile, and may join
      a group again; who leaves for good keeps it and may not. */
  lemma LeavingResumes(s: State, t: nat, b: nat, unsuspend: bool, moves: seq<Move>)
    requires s.Enabled(t, Leave(b, unsuspend)) && Legal(s.Apply(t, Leave(b, unsuspend)), moves)
    requires forall i :: 0 <= i < |moves| ==> moves[i].thread != t
    ensures var n := After(s.Apply(t, Leave(b, unsuspend)), moves);
            && n.Enabled(t, LeaveEnd) && b < |n.bevs| && b < |n.Apply(t, LeaveEnd).bevs|
            && n.Apply(t, LeaveEnd).bevs[b] ==
               if unsuspend then n.bevs[b].(flag := false) else n.bevs[b].(gone := true)
  {
    SameSizes(s, t, Leave(b, unsuspend));
    OthersGoOn(s.Apply(t, Leave(b, unsuspend)), moves, t);
  }

  /** The owner of a bufferevent's lock, and nobody else, can give it back; a free one can be taken. */
  lemma LockTaken(s: State, t: nat, b: nat)
    requires t < |s.pcs| && s.pcs[t].Idle? && b < |s.bevs|
    ensures s.bevs[b].owner == None <==> s.Enabled(t, Lock(b))
    ensures s.bevs[b].owner == Some(t) <==> s.Enabled(t, Unlock(b))
    ensures s.bevs[b].owner == None ==> s.Apply(t, Lock(b)) == s.SetBev(b, s.bevs[b].(owner := Some(t)))
    ensures s.bevs[b].owner == Some(t) ==> s.Apply(t, Unlock(b)) == s.SetBev(b, s.bevs[b].(owner := None))
  {
  }

  // ---------- Exhausted groups ----------

  /** A refill that leaves the group exhausted (it wrapped, or added too little), or a smallest share set for an
      exhausted group, finds it suspended, or the share is zero.  All other steps look at the limit themselves. */
  predicate Careful(s: State, t: nat, step: Step)
    requires s.Enabled(t, step)
  {
    match step
    case Refill(g, to, _) => to > 0 || s.groups[g].minShare == 0 || s.groups[g].suspended
    case Configure(g, _, share) => s.groups[g].limit > 0 || share == 0 || s.groups[g].suspended
    case Share(g, share) => s.groups[g].limit > 0 || share == 0 || s.groups[g].suspended
    case _ => true
  }

  ghost predicate AllChecked(s: State) {
    forall g :: 0 <= g < |s.groups| ==> s.Checked(g)
  }

  lemma StepCheckedAt(s: State, t: nat, step: Step, g: nat)
    requires s.Inv() && s.Enabled(t, step) && g < |s.groups| && s.Checked(g) && Careful(s, t, step)
    ensures g < |s.Apply(t, step).groups| && s.Apply(t, step).Checked(g)
  {
    hide Order, Without, NoDup, State.Inv, State.BevOk, State.ThreadOk, State.GroupOk;
    NotBoth(s, g);
  }

  lemma NotBoth(s: State, g: nat)
    requires s.Inv() && g < |s.groups|
    ensures !(s.groups[g].suspended && s.groups[g].pending)
  {
    assert s.GroupOk(g);
  }

  lemma NeedsCare(s: State, t: nat, step: Step)
    requires s.Inv() && s.Enabled(t, step) && (step.Refill? || step.Configure? || step.Share?)
    ensures step.g < |s.groups| && step.g < |s.Apply(t, step).groups|
    ensures s.Apply(t, step).Checked(step.g) ==> Careful(s, t, step)
  {
    hide Order, Without, NoDup, State.Inv, State.BevOk, State.ThreadOk, State.GroupOk;
    NotBoth(s, step.g);
  }

  lemma StepChecked(s: State, t: nat, step: Step)
    requires s.Inv() && s.Enabled(t, step) && AllChecked(s)
    ensures AllChecked(s.Apply(t, step)) <==> Careful(s, t, step)
  {
    hide State.Apply, State.Inv, State.Checked;
    SameSizes(s, t, step);
    forall g | 0 <= g < |s.groups|
      ensures Careful(s, t, step) ==> s.Apply(t, step).Checked(g)
    {
      if Careful(s, t, step) { StepCheckedAt(s, t, step, g); }
    }
    if step.Refill? || step.Configure? || step.Share? { NeedsCare(s, t, step); }
  }

  predicate AllCareful(s: State, moves: seq<Move>)
    requires Legal(s, moves)
    decreases |moves|
  {
    moves == [] ||
    (Careful(s, moves[0].thread, moves[0].step) && AllCareful(s.Apply(moves[0].thread, moves[0].step), moves[1..]))
  }

  /** In every state of the run the exhausted groups with a smallest share above zero are suspended. */
  ghost predicate AlwaysChecked(s: State, moves: seq<Move>)
    requires Legal(s, moves)
    decreases |moves|
  {
    AllChecked(s) && (moves == [] || AlwaysChecked(s.Apply(moves[0].thread, moves[0].step), moves[1..]))
  }

  lemma {:induction false} RunChecked(s: State, moves: seq<Move>)
    requires s.Inv() && Legal(s, moves) && AllChecked(s)
    ensures AlwaysChecked(s, moves) <==> AllCareful(s, moves)
    decreases |moves|
  {
    hide State.Apply, State.Enabled, State.Inv, AllChecked, Careful;
    if moves != [] {
      var n := s.Apply(moves[0].thread, moves[0].step);
      StepInv(s, moves[0].thread, moves[0].step);
      StepChecked(s, moves[0].thread, moves[0].step);
      if AllChecked(n) { RunChecked(n, moves[1..]); }
    }
  }

  /** Exhausted groups with a smallest share above zero stay suspended exactly as long as every step is careful. */
  lemma ExhaustedSuspended(s0: State, moves: seq<Move>)
    requires Initial(s0) && Legal(s0, moves)
    ensures AlwaysChecked(s0, moves) <==> AllCareful(s0, moves)
  {
    RunChecked(s0, moves);
  }

  /** With a smallest share of zero a refill that only brings the limit up to zero resumes the group, and raising the
      share afterwards does not suspend it again: Careful cannot be left out. */
  lemma ExhaustedButRunning()
    ensures var s := State([], [Group(None, [], false, false, 1, 0)], [Idle]);
            var moves := [Move(0, Manual(0, -1, 0))] + ([Move(0, Finish)] +
                         ([Move(0, Refill(0, 0, 0))] + ([Move(0, Finish)] + ([Move(0, Share(0, 64))] + []))));
            && Initial(s) && Legal(s, moves)
            && var n := After(s, moves).groups;
               |n| == 1 && n[0].limit <= 0 && n[0].minShare > 0 && !n[0].suspended && !n[0].pending
  {
    var s0 := State([], [Group(None, [], false, false, 1, 0)], [Idle]);
    var s2 := SuspendedOnce(s0);
    var s4 := ResumedOnce(s2);
    var s5 := s4.Apply(0, Share(0, 64));
    var m4 := [Move(0, Share(0, 64))] + [];
    var m2 := [Move(0, Refill(0, 0, 0))] + ([Move(0, Finish)] + m4);
    RunEnds(s5);
    Chain(s4, Move(0, Share(0, 64)), [], s5);
    Twice(s2, Refill(0, 0, 0), m4, s5);
    Twice(s0, Manual(0, -1, 0), m2, s5);
  }

  lemma SuspendedOnce(s: State) returns (n: State)
    requires s == State([], [Group(None, [], false, false, 1, 0)], [Idle])
    ensures s.Enabled(0, Manual(0, -1, 0)) && s.Apply(0, Manual(0, -1, 0)).Enabled(0, Finish)
    ensures n == s.Apply(0, Manual(0, -1, 0)).Apply(0, Finish)
    ensures n == State([], [Group(None, [], true, false, -1, 0)], [Idle])
  {
    n := s.Apply(0, Manual(0, -1, 0)).Apply(0, Finish);
  }

  lemma ResumedOnce(s: State) returns (n: State)
    requires s == State([], [Group(None, [], true, false, -1, 0)], [Idle])
    ensures s.Enabled(0, Refill(0, 0, 0)) && s.Apply(0, Refill(0, 0, 0)).Enabled(0, Finish)
    ensures n == s.Apply(0, Refill(0, 0, 0)).Apply(0, Finish)
    ensures n == State([], [Group(None, [], false, false, 0, 0)], [Idle])
  {
    n := s.Apply(0, Refill(0, 0, 0)).Apply(0, Finish);
  }

  /** A step of thread 0 that begins a pass over nobody, and its end. */
  lemma Twice(s: State, step: Step, rest: seq<Move>, n: State)
    requires s.Enabled(0, step) && s.Apply(0, step).Enabled(0, Finish)
    requires Legal(s.Apply(0, step).Apply(0, Finish), rest) && After(s.Apply(0, step).Apply(0, Finish), rest) == n
    ensures Legal(s, [Move(0, step)] + ([Move(0, Finish)] + rest))
    ensures After(s, [Move(0, step)] + ([Move(0, Finish)] + rest)) == n
  {
    hide State.Apply, State.Enabled;
    Chain(s.Apply(0, step), Move(0, Finish), rest, n);
    Chain(s, Move(0, step), [Move(0, Finish)] + rest, n);
  }

  lemma RunEnds(s: State)
    ensures Legal(s, []) && After(s, []) == s
  {
  }

  lemma Chain(s: State, m: Move, rest: seq<Move>, n: State)
    requires s.Enabled(m.thread, m.step)
    requires Legal(s.Apply(m.thread, m.step), rest) && After(s.Apply(m.thread, m.step), rest) == n
    ensures Legal(s, [m] + rest) && After(s, [m] + rest) == n
  {
    assert ([m] + rest)[1..] == rest;
  }

  // ---------- The loops over the members ----------

  /** A member as the loops see it: its lock can be taken or not, and it has the bit or not. */
  class Member {
    const lockable: bool
    var suspended: bool
    constructor (lockable: bool, suspended: bool)
      ensures this.lockable == lockable && this.suspended == suspended
    {
      this.lockable, this.suspended := lockable, suspended;
    }
  }

  /** Which members have the bit, and which locks can be taken. */
  ghost function Bits(ms: seq<Member>): (b: seq<bool>)
    reads ms
    ensures |b| == |ms| && forall k :: 0 <= k < |b| ==> b[k] == ms[k].suspended
  {
    seq(|ms|, k requires 0 <= k < |ms| reads ms => ms[k].suspended)
  }

  ghost function Locks(ms: seq<Member>): (b: seq<bool>)
    ensures |b| == |ms| && forall k :: 0 <= k < |b| ==> b[k] == ms[k].lockable
  {
    seq(|ms|, k requires 0 <= k < |ms| => ms[k].lockable)
  }

  /** The bit is cleared for the members from lo to hi whose lock can be taken. */
  ghost function Cleared(bits: seq<bool>, locks: seq<bool>, lo: nat, hi: nat): seq<bool>
    requires |bits| == |locks|
  {
    seq(|bits|, k requires 0 <= k < |bits| => bits[k] && !(lo <= k < hi && locks[k]))
  }

  lemma ClearedTwice(bits: seq<bool>, locks: seq<bool>, first: nat)
    requires |bits| == |locks| && first <= |bits|
    ensures |Cleared(bits, locks, first, |bits|)| == |bits|
    ensures Cleared(Cleared(bits, locks, first, |bits|), locks, 0, first) == Cleared(bits, locks, 0, |bits|)
  {
  }

  lemma BothParts(members: seq<Member>, k: nat)
    requires k <= |members|
    ensures multiset(members[k..|members|] + members[0..k]) == multiset(members)
  {
    assert members == members[0..k] + members[k..|members|];
  }

  class RateLimitGroup {
    var members: seq<Member>
    var readSuspended: bool
    var pendingUnsuspendRead: bool

    ghost predicate Valid()
      reads this`members
    {
      forall i, j :: 0 <= i < j < |members| ==> members[i] != members[j]
    }

    /** No other thread holds the lock of a member from index lo to hi. */
    ghost predicate Free(lo: nat, hi: nat)
      requires hi <= |members|
      reads this`members
    {
      forall k :: lo <= k < hi ==> members[k].lockable
    }

    constructor ()
      ensures Valid() && members == [] && !readSuspended && !pendingUnsuspendRead
    {
      members, readSuspended, pendingUnsuspendRead := [], false, false;
    }

    /** Suspend all members whose lock is free. */
    method SuspendReading()
      requires Valid()
      modifies this`readSuspended, this`pendingUnsuspendRead, members`suspended
      ensures readSuspended && !pendingUnsuspendRead
      ensures forall k :: 0 <= k < |members| ==>
                members[k].suspended == (old(members[k].suspended) || members[k].lockable)
    {
      readSuspended := true;
      pendingUnsuspendRead := false;
      for i := 0 to |members|
        invariant readSuspended && !pendingUnsuspendRead
        invariant forall k :: 0 <= k < |members| ==>
                    members[k].suspended == (old(members[k].suspended) || (k < i && members[k].lockable))
      {
        if members[i].lockable {
          members[i].suspended := true;
        }
      }
    }

    /** Resume the members from index lo to hi, and remember in again if one is locked. */
    method ResumeRange(lo: nat, hi: nat, again0: bool) returns (again: bool, ghost visited: seq<Member>)
      requires Valid() && lo <= hi <= |members|
      modifies members[lo..hi]`suspended
      ensures visited == members[lo..hi]
      ensures again == (again0 || !Free(lo, hi))
      ensures Bits(members) == Cleared(old(Bits(members)), Locks(members), lo, hi)
    {
      again, visited := again0, [];
      for i := lo to hi
        invariant visited == members[lo..i]
        invariant again == (again0 || !Free(lo, i))
        invariant forall k :: 0 <= k < |members| ==>
                    members[k].suspended == (old(members[k].suspended) && !(lo <= k < i && members[k].lockable))
      {
        if members[i].lockable {
          assert members[lo..hi][i - lo] == members[i];
          members[i].suspended := false;
        } else {
          again := true;
        }
        visited := visited + [members[i]];
      }
    }

    /** From a random member to the end, then from the start up to that member: whatever it is, all
        members whose lock is free are resumed, and pending tells whether there were others. */
    method UnsuspendReading(which: nat) returns (ghost visited: seq<Member>)
      requires Valid() && (members == [] || which < |members|)
      modifies this`readSuspended, this`pendingUnsuspendRead, members`suspended
      ensures multiset(visited) == multiset(members)
      ensures !readSuspended && pendingUnsuspendRead == !Free(0, |members|)
      ensures Bits(members) == Cleared(old(Bits(members)), Locks(members), 0, |members|)
    {
      hide Bits, Locks, Cleared, Valid, Free;
      readSuspended := false;
      var again;
      again, visited := ResumeAround(if members == [] then 0 else which);
      pendingUnsuspendRead := again;
    }

    /** Both loops: from the member at index first to the end, then from the start up to it. */
    method ResumeAround(first: nat) returns (again: bool, ghost visited: seq<Member>)
      requires Valid() && first <= |members|
      modifies members`suspended
      ensures multiset(visited) == multiset(members)
      ensures again == !Free(0, |members|)
      ensures Bits(members) == Cleared(old(Bits(members)), Locks(members), 0, |members|)
    {
      hide Bits, Locks, Cleared, Valid, Free;
      FreeParts(first);
      ClearedTwice(Bits(members), Locks(members), first);
      ghost var upper, lower;
      again, upper := ResumeRange(first, |members|, false);
      again, lower := ResumeRange(0, first, again);
      visited := upper + lower;
      BothParts(members, first);
    }

    lemma FreeParts(first: nat)
      requires first <= |members|
      ensures Free(0, |members|) <==> Free(first, |members|) && Free(0, first)
    {
    }
  }
}
