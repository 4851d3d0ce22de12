/**
 * The end of catch-up: the source and the sink as two processes over a FIFO port and shared flags,
 * each store and each load a step of its own.
 */
module CatchUp {
  import opened Wrappers

  datatype Message = Apply(slot: nat) | Reset(slot: nat)

  /** Where the source stands after handing over a message. */
  datatype SourcePc = Idle | BlockSent(slot: nat, tip: nat) | TipStored(slot: nat) | SlotStored | ResetSent(tip: nat)

  /** Where the sink stands: what it applied last, and which flags it has loaded since. */
  datatype SinkPc = Waiting | Applied(slot: nat) | TipLoaded(slot: nat, tip: nat) | FlagLoaded(slot: nat, tip: nat, atTip: bool, mark: nat)

  /** How catch-up ended: by draining or at the tip, with how much applied, which Await observed, what still queued. */
  datatype End = End(drained: bool, applied: nat, mark: nat, queued: seq<Message>)

  /**
   * `sent` is everything ever handed over, of which the first `applied` are applied; `mark` is how
   * much had been handed over at the last Await.
   */
  datatype State = State(sent: seq<Message>, applied: nat, source: SourcePc, sink: SinkPc,
                         nodeTip: nat, sentSlot: nat, atTip: bool, catchingUp: bool, mark: nat, end: Option<End>)

  const INIT := State([], 0, Idle, Waiting, 0, 0, false, true, 0, None)

  datatype Action = RollForward(slot: nat, tip: nat) | RollBackward(slot: nat, tip: nat) | StoreTip | StoreSlot | ClearFlag | Await
                  | Receive | LoadTip | LoadFlag | Decide

  /** The slot the chain handed over so far ends at. */
  function Last(sent: seq<Message>): nat {
    if sent == [] then 0 else sent[|sent| - 1].slot
  }

  predicate Enabled(s: State, a: Action) {
    match a
    case RollForward(slot, _) => s.source.Idle? && (s.sent != [] ==> slot > Last(s.sent))
    case RollBackward(_, _) => s.source.Idle?
    case StoreTip => s.source.BlockSent? || s.source.ResetSent?
    case StoreSlot => s.source.TipStored?
    case ClearFlag => s.source.SlotStored?
    case Await => s.source.Idle?
    case Receive => s.sink.Waiting? && s.applied < |s.sent|
    case LoadTip => s.sink.Applied?
    case LoadFlag => s.sink.TipLoaded?
    case Decide => s.sink.FlagLoaded?
  }

  function Step(s: State, a: Action): State
    requires Enabled(s, a)
  {
    match a
    case RollForward(slot, tip) => s.(sent := s.sent + [Apply(slot)], source := BlockSent(slot, tip))
    case RollBackward(slot, tip) => s.(sent := s.sent + [Reset(slot)], source := ResetSent(tip))
    case StoreTip =>
      if s.source.BlockSent? then s.(nodeTip := s.source.tip, source := TipStored(s.source.slot))
      else s.(nodeTip := s.source.tip, source := Idle)
    case StoreSlot => s.(sentSlot := s.source.slot, source := SlotStored)
    case ClearFlag => s.(atTip := false, source := Idle)
    case Await => s.(atTip := true, mark := |s.sent|)
    case Receive =>
      var m := s.sent[s.applied];
      s.(applied := s.applied + 1, sink := if m.Apply? && s.catchingUp then Applied(m.slot) else Waiting)
    case LoadTip => s.(sink := TipLoaded(s.sink.slot, s.nodeTip))
    case LoadFlag => s.(sink := FlagLoaded(s.sink.slot, s.sink.tip, s.atTip, s.mark))
    case Decide =>
      var FlagLoaded(slot, tip, atTip, mark) := s.sink;
      var drained := atTip && slot >= s.sentSlot;
      if (tip > 0 && slot >= tip) || drained
      then s.(sink := Waiting, catchingUp := false,
              end := Some(End(drained, s.applied, mark, s.sent[if s.applied <= |s.sent| then s.applied else |s.sent|..])))
      else s.(sink := Waiting)
  }

  /** The state an interleaving leads to, if each of its steps can be taken. */
  function Exec(s: State, actions: seq<Action>): Option<State>
    decreases |actions|
  {
    if actions == [] then Some(s)
    else if !Enabled(s, actions[0]) then None
    else Exec(Step(s, actions[0]), actions[1..])
  }

  // ---- What every interleaving keeps ----

  /** How many messages the published slot accounts for. */
  function Stored(s: State): nat {
    if (s.source.BlockSent? || s.source.TipStored?) && s.sent != [] then |s.sent| - 1 else |s.sent|
  }

  /** The slot of the last block among some messages. */
  function LastBlock(sent: seq<Message>): nat {
    if sent == [] then 0
    else if sent[|sent| - 1].Apply? then sent[|sent| - 1].slot
    else LastBlock(sent[..|sent| - 1])
  }

  predicate Above(sent: seq<Message>, i: nat)
    requires 0 < i < |sent|
  {
    sent[i].Apply? ==> sent[i].slot > sent[i - 1].slot
  }

  /** A block handed over lies above whatever was handed over before it. */
  predicate Climbs(sent: seq<Message>) {
    forall i | 0 < i < |sent| :: Above(sent, i)
  }

  predicate Inv(s: State) {
    && s.applied <= |s.sent| && s.mark <= Stored(s) && Climbs(s.sent)
    && s.sentSlot == LastBlock(s.sent[..Stored(s)])
    && (s.source.BlockSent? || s.source.TipStored? ==> s.sent != [] && s.sent[|s.sent| - 1] == Apply(s.source.slot))
    && (!s.sink.Waiting? ==> 0 < s.applied && s.sent[s.applied - 1] == Apply(s.sink.slot))
    && (s.sink.FlagLoaded? ==> s.sink.mark <= Stored(s))
    && (s.end.Some? && s.end.value.drained && NoReset(s.end.value.queued) ==> s.end.value.applied >= s.end.value.mark)
  }

  predicate NoReset(queued: seq<Message>) {
    forall m <- queued :: m.Apply?
  }

  lemma {:induction false} BlocksClimb(sent: seq<Message>, i: nat, j: nat)
    requires Climbs(sent) && i < j < |sent| && forall k | i < k <= j :: sent[k].Apply?
    ensures sent[j].slot > sent[i].slot
    decreases j
  {
    assert Above(sent, j);
    if i < j - 1 {
      BlocksClimb(sent, i, j - 1);
    }
  }

  /** Draining with no rollback queued: everything before the observed Await is applied. */
  lemma DecideRight(s: State)
    requires Inv(s) && s.sink.FlagLoaded? && s.sink.slot >= s.sentSlot && NoReset(s.sent[s.applied..])
    ensures s.applied >= s.sink.mark
  {
    var n := Stored(s);
    if s.applied < s.sink.mark {
      forall k | s.applied <= k < n
        ensures s.sent[k].Apply?
      {
        assert s.sent[s.applied..][k - s.applied] == s.sent[k];
      }
      LastIsBlock(s.sent[..n]);
      BlocksClimb(s.sent, s.applied - 1, n - 1);
    }
  }

  lemma Grown(sent: seq<Message>, m: Message)
    requires Climbs(sent) && (m.Apply? && sent != [] ==> m.slot > sent[|sent| - 1].slot)
    ensures Climbs(sent + [m]) && (sent + [m])[..|sent|] == sent && (sent + [m])[..|sent| + 1] == sent + [m]
    ensures LastBlock(sent + [m]) == if m.Apply? then m.slot else LastBlock(sent)
  {
    var all := sent + [m];
    assert all[..|sent|] == sent;
    forall i | 0 < i < |all|
      ensures Above(all, i)
    {
      assert i == |sent| || Above(sent, i);
    }
  }

  lemma SourceKeeps(s: State, a: Action)
    requires Inv(s) && Enabled(s, a) && (a.RollForward? || a.RollBackward? || a.StoreTip? || a.StoreSlot? || a.ClearFlag? || a.Await?)
    ensures Inv(Step(s, a))
  {
    hide LastBlock, NoReset, Climbs;
    assert s.sent[..|s.sent|] == s.sent;
    if a.RollForward? {
      Grown(s.sent, Apply(a.slot));
    } else if a.RollBackward? {
      Grown(s.sent, Reset(a.slot));
    } else if a.StoreSlot? {
      LastIsBlock(s.sent);
    }
  }

  lemma SinkKeeps(s: State, a: Action)
    requires Inv(s) && Enabled(s, a) && (a.Receive? || a.LoadTip? || a.LoadFlag? || a.Decide?)
    ensures Inv(Step(s, a))
  {
    hide LastBlock, NoReset, Climbs;
    if a.Decide? && s.sink.atTip && s.sink.slot >= s.sentSlot && NoReset(s.sent[s.applied..]) {
      DecideRight(s);
    }
  }

  lemma StepKeeps(s: State, a: Action)
    requires Inv(s) && Enabled(s, a)
    ensures Inv(Step(s, a))
  {
    hide Inv, Step;
    if a.Receive? || a.LoadTip? || a.LoadFlag? || a.Decide? {
      SinkKeeps(s, a);
    } else {
      SourceKeeps(s, a);
    }
  }

  lemma LastIsBlock(sent: seq<Message>)
    requires sent != [] && sent[|sent| - 1].Apply?
    ensures LastBlock(sent) == sent[|sent| - 1].slot
  {
  }

  lemma {:induction false} RunKeeps(s: State, actions: seq<Action>)
    requires Inv(s)
    ensures Exec(s, actions).Some? ==> Inv(Exec(s, actions).value)
    decreases |actions|
  {
    hide Inv, Enabled, Step;
    if actions != [] && Enabled(s, actions[0]) {
      StepKeeps(s, actions[0]);
      RunKeeps(Step(s, actions[0]), actions[1..]);
    }
  }

  /**
   * However the two interleave: if catch-up ended because the queue drained, and no rollback was
   * waiting in it, then every message handed over before the observed Await had been applied.
   */
  lemma DrainedMeansApplied(actions: seq<Action>)
    requires Exec(INIT, actions).Some? && Exec(INIT, actions).value.end.Some?
    ensures var end := Exec(INIT, actions).value.end.value;
            end.drained && NoReset(end.queued) ==> end.applied >= end.mark
  {
    hide NoReset;
    RunKeeps(INIT, actions);
  }

  // ---- A rollback in the queue ----

  /** One block from request to published slot. */
  function Forward(slot: nat, tip: nat): seq<Action> {
    [RollForward(slot, tip), StoreTip, StoreSlot, ClearFlag]
  }

  predicate TooEarly(end: Option<End>) {
    end.Some? && end.value.drained && end.value.applied < end.value.mark
  }

  /** An interleaving that ends catch-up by draining although less is applied than the observed Await followed. */
  ghost predicate EndsEarly(actions: seq<Action>) {
    var r := Exec(INIT, actions);
    r.Some? && TooEarly(r.value.end)
  }

  lemma {:induction false} ExecSplit(s: State, a: seq<Action>, b: seq<Action>)
    ensures Exec(s, a + b) == if Exec(s, a).Some? then Exec(Exec(s, a).value, b) else None
    decreases |a|
  {
    hide Enabled, Step;
    if a == [] {
      assert a + b == b;
    } else {
      assert (a + b)[0] == a[0] && (a + b)[1..] == a[1..] + b;
      if Enabled(s, a[0]) {
        ExecSplit(Step(s, a[0]), a[1..], b);
      }
    }
  }

  lemma Exec1(s: State, actions: seq<Action>, k: nat)
    requires k < |actions| && Enabled(s, actions[k])
    ensures Exec(s, actions[k..]) == Exec(Step(s, actions[k]), actions[k + 1..])
  {
    hide Enabled, Step;
    assert actions[k..][0] == actions[k] && actions[k..][1..] == actions[k + 1..];
  }

  lemma ForwardDone(s: State, slot: nat, tip: nat)
    requires s.source.Idle? && (s.sent != [] ==> slot > Last(s.sent))
    ensures Exec(s, Forward(slot, tip)) ==
            Some(s.(sent := s.sent + [Apply(slot)], nodeTip := tip, sentSlot := slot, atTip := false))
  {
    hide Exec;
    var f := Forward(slot, tip);
    var s1 := Step(s, f[0]);
    var s2 := Step(s1, f[1]);
    var s3 := Step(s2, f[2]);
    var s4 := Step(s3, f[3]);
    assert f[0..] == f && f[4..] == [];
    Exec1(s, f, 0);
    Exec1(s1, f, 1);
    Exec1(s2, f, 2);
    Exec1(s3, f, 3);
    ExecNone(s4);
  }

  lemma ExecNone(s: State)
    ensures Exec(s, []) == Some(s)
  {
  }

  lemma BackDone(s: State, slot: nat, tip: nat)
    requires s.source.Idle?
    ensures Exec(s, [RollBackward(slot, tip), StoreTip]) == Some(s.(sent := s.sent + [Reset(slot)], nodeTip := tip))
  {
    hide Exec;
    var b := [RollBackward(slot, tip), StoreTip];
    var s1 := Step(s, b[0]);
    assert b[0..] == b && b[2..] == [];
    Exec1(s, b, 0);
    Exec1(s1, b, 1);
    ExecNone(Step(s1, b[1]));
  }

  // ---- When an early end is possible ----

  predicate OfSource(a: Action) {
    a.RollForward? || a.RollBackward? || a.StoreTip? || a.StoreSlot? || a.ClearFlag? || a.Await?
  }

  /** What the source does in an interleaving. */
  function SourceOf(actions: seq<Action>): (r: seq<Action>)
    ensures forall a <- r :: OfSource(a)
  {
    if actions == [] then []
    else SourceOf(actions[..|actions| - 1]) + (if OfSource(actions[|actions| - 1]) then [actions[|actions| - 1]] else [])
  }

  lemma {:induction false} SourceConcat(a: seq<Action>, b: seq<Action>)
    ensures SourceOf(a + b) == SourceOf(a) + SourceOf(b)
  {
    if b == [] {
      assert a + b == a;
    } else {
      var n := |b| - 1;
      assert (a + b)[..|a + b| - 1] == a + b[..n];
      SourceConcat(a, b[..n]);
    }
  }

  lemma {:induction false} SourceAll(src: seq<Action>)
    requires forall a <- src :: OfSource(a)
    ensures SourceOf(src) == src
  {
    if src != [] {
      var n := |src| - 1;
      SourceAll(src[..n]);
      assert src[n] in src && src == src[..n] + [src[n]];
    }
  }

  /** Two states in which the source stands alike. */
  predicate SameSource(a: State, b: State) {
    a.sent == b.sent && a.source == b.source && a.nodeTip == b.nodeTip && a.sentSlot == b.sentSlot && a.atTip == b.atTip && a.mark == b.mark
  }

  /** Two states in which the sink stands alike. */
  predicate SameSink(a: State, b: State) {
    a.applied == b.applied && a.sink == b.sink && a.catchingUp == b.catchingUp && a.end == b.end
  }

  lemma SourceStep(a: State, b: State, x: Action)
    requires SameSource(a, b) && OfSource(x) && Enabled(a, x)
    ensures Enabled(b, x) && SameSource(Step(a, x), Step(b, x)) && SameSink(b, Step(b, x))
  {
  }

  lemma SinkStep(s: State, x: Action)
    requires !OfSource(x) && Enabled(s, x)
    ensures SameSource(s, Step(s, x))
  {
  }

  /** The source does not see the sink. */
  lemma {:induction false} SourceRuns(a: State, b: State, src: seq<Action>)
    requires SameSource(a, b) && Exec(a, src).Some? && forall x <- src :: OfSource(x)
    ensures Exec(b, src).Some? && SameSource(Exec(a, src).value, Exec(b, src).value) && SameSink(b, Exec(b, src).value)
    decreases |src|
  {
    hide Step, Enabled, SameSource, SameSink;
    if src == [] {
      SameAsItself(b);
    } else {
      assert src[0] in src;
      SourceStep(a, b, src[0]);
      SourceRuns(Step(a, src[0]), Step(b, src[0]), src[1..]);
      SameSinkThrough(b, Step(b, src[0]), Exec(b, src).value);
    }
  }

  lemma SameAsItself(s: State)
    ensures SameSink(s, s) && SameSource(s, s)
  {
  }

  lemma SameSinkThrough(a: State, b: State, c: State)
    requires SameSink(a, b) && SameSink(b, c)
    ensures SameSink(a, c)
  {
  }

  lemma ExecLast(s: State, a: seq<Action>, x: Action)
    ensures Exec(s, a + [x]) ==
            if Exec(s, a).Some? && Enabled(Exec(s, a).value, x) then Some(Step(Exec(s, a).value, x)) else None
  {
    hide Enabled, Step;
    ExecSplit(s, a, [x]);
    if Exec(s, a).Some? {
      assert [x][0] == x && [x][1..] == [];
    }
  }

  /** The state after the first `k` actions of the source, the sink doing nothing. */
  function At(src: seq<Action>, k: nat): State
    requires k <= |src|
  {
    if Exec(INIT, src[..k]).Some? then Exec(INIT, src[..k]).value else INIT
  }

  lemma AtNext(src: seq<Action>, k: nat)
    requires k < |src| && Exec(INIT, src).Some?
    ensures Exec(INIT, src[..k]).Some? && Exec(INIT, src[..k + 1]).Some?
    ensures Enabled(At(src, k), src[k]) && At(src, k + 1) == Step(At(src, k), src[k])
  {
    hide Exec, Enabled, Step;
    assert src == src[..k] + src[k..] && src == src[..k + 1] + src[k + 1..] && src[..k + 1] == src[..k] + [src[k]];
    ExecSplit(INIT, src[..k], src[k..]);
    ExecSplit(INIT, src[..k + 1], src[k + 1..]);
    ExecLast(INIT, src[..k], src[k]);
  }

  lemma AtMore(src: seq<Action>, x: Action, k: nat)
    requires k <= |src|
    ensures At(src + [x], k) == At(src, k)
  {
    assert (src + [x])[..k] == src[..k];
  }

  /** What is handed over stays handed over. */
  lemma {:induction false} SentGrows(src: seq<Action>, p: nat, q: nat)
    requires p <= q <= |src| && Exec(INIT, src).Some? && forall a <- src :: OfSource(a)
    ensures At(src, p).sent <= At(src, q).sent
    decreases q
  {
    hide At, Exec;
    if p < q {
      SentGrows(src, p, q - 1);
      AtNext(src, q - 1);
    }
  }

  /**
   * Block `i` was handed over before the Await at `p`, and more after it; up to `q` actions the source
   * publishes no slot above the block's.
   */
  predicate CauseAt(src: seq<Action>, i: nat, p: nat, q: nat) {
    && p < q <= |src| && src[p].Await?
    && i + 1 < |At(src, p).sent| && At(src, p).sent[i].Apply?
    && At(src, q).sentSlot <= At(src, p).sent[i].slot
  }

  ghost predicate Cause(src: seq<Action>) {
    exists i, p, q :: CauseAt(src, i, p, q)
  }

  /** The mark is how much had been handed over at some Await. */
  ghost predicate Marked(src: seq<Action>, mark: nat) {
    exists p :: 0 <= p < |src| && src[p].Await? && At(src, p).sent != [] && mark == |At(src, p).sent|
  }

  lemma MoreCauses(src: seq<Action>, x: Action)
    ensures Cause(src) ==> Cause(src + [x])
    ensures forall mark :: Marked(src, mark) ==> Marked(src + [x], mark)
  {
    hide At;
    if i, p, q :| CauseAt(src, i, p, q) {
      AtMore(src, x, p);
      AtMore(src, x, q);
      assert CauseAt(src + [x], i, p, q);
    }
    forall mark | Marked(src, mark)
      ensures Marked(src + [x], mark)
    {
      var p :| 0 <= p < |src| && src[p].Await? && At(src, p).sent != [] && mark == |At(src, p).sent|;
      AtMore(src, x, p);
      assert (src + [x])[p] == src[p];
    }
  }

  /** The flags the sink acts on come from an Await of the source, and an early end from a cause. */
  ghost predicate Told(s: State, src: seq<Action>) {
    && (s.atTip && s.mark > 0 ==> Marked(src, s.mark))
    && (s.sink.FlagLoaded? && s.sink.atTip && s.sink.mark > 0 ==> Marked(src, s.sink.mark))
    && (TooEarly(s.end) ==> Cause(src))
  }

  lemma SourceTells(s: State, src: seq<Action>, x: Action)
    requires Told(s, src) && OfSource(x) && Enabled(s, x) && SameSource(At(src, |src|), s)
    ensures Told(Step(s, x), src + [x])
  {
    hide At, Cause;
    MoreCauses(src, x);
    if x.Await? && s.sent != [] {
      AtMore(src, x, |src|);
      assert (src + [x])[|src|] == x;
    }
  }

  lemma SinkTells(s: State, src: seq<Action>, x: Action)
    requires Inv(s) && Told(s, src) && !OfSource(x) && Enabled(s, x) && SameSource(At(src, |src|), s)
    requires Exec(INIT, src).Some? && forall a <- src :: OfSource(a)
    ensures Told(Step(s, x), src)
  {
    hide At, Exec, Cause, LastBlock, Climbs, NoReset;
    if x.Decide? && s.sink.atTip && s.sink.slot >= s.sentSlot && s.applied < s.sink.mark {
      var p :| 0 <= p < |src| && src[p].Await? && At(src, p).sent != [] && s.sink.mark == |At(src, p).sent|;
      SentGrows(src, p, |src|);
      Caused(src, s.applied - 1, p);
    }
  }

  lemma Caused(src: seq<Action>, i: nat, p: nat)
    requires CauseAt(src, i, p, |src|)
    ensures Cause(src)
  {
  }

  /** An early end has a cause in what the source did. */
  lemma {:induction false} EarlyHasCause(actions: seq<Action>)
    requires Exec(INIT, actions).Some?
    ensures var src := SourceOf(actions);
            Exec(INIT, src).Some? && SameSource(At(src, |src|), Exec(INIT, actions).value) && Told(Exec(INIT, actions).value, src)
  {
    hide Exec, Step, Enabled, SameSource, Told, At;
    if actions == [] {
      NothingTold();
    } else {
      var n := |actions| - 1;
      var x := actions[n];
      assert actions == actions[..n] + [x];
      ExecLast(INIT, actions[..n], x);
      EarlyHasCause(actions[..n]);
      RunKeeps(INIT, actions[..n]);
      var s, src := Exec(INIT, actions[..n]).value, SourceOf(actions[..n]);
      AtEnd(src);
      if OfSource(x) {
        SourceTells(s, src, x);
        SourceStepBack(At(src, |src|), s, x);
        ExecLast(INIT, src, x);
        AtEnd(src + [x]);
      } else {
        assert SourceOf(actions) == src;
        SinkTells(s, src, x);
        SinkStep(s, x);
        SameSourceThrough(At(src, |src|), s, Step(s, x));
      }
    }
  }

  lemma NothingTold()
    ensures Exec(INIT, []) == Some(INIT) && SameSource(At([], 0), INIT) && Told(INIT, []) && Inv(INIT)
  {
  }

  lemma AtEnd(src: seq<Action>)
    requires Exec(INIT, src).Some?
    ensures At(src, |src|) == Exec(INIT, src).value
  {
    hide Exec;
    assert src[..|src|] == src;
  }

  lemma SourceStepBack(a: State, b: State, x: Action)
    requires SameSource(a, b) && OfSource(x) && Enabled(b, x)
    ensures Enabled(a, x) && SameSource(Step(a, x), Step(b, x))
  {
  }

  lemma SameSourceThrough(a: State, b: State, c: State)
    requires SameSource(a, b) && SameSource(b, c)
    ensures SameSource(a, c)
  {
  }

  lemma NoSource(more: seq<Action>)
    requires forall a <- more :: !OfSource(a)
    ensures SourceOf(more) == []
    decreases |more|
  {
    if more != [] {
      assert more[|more| - 1] in more;
      NoSource(more[..|more| - 1]);
    }
  }

  /** The action that handed over a message. */
  lemma {:induction false} HandedOver(src: seq<Action>, p: nat, i: nat) returns (r: nat)
    requires p <= |src| && Exec(INIT, src).Some? && forall a <- src :: OfSource(a)
    requires i < |At(src, p).sent| && At(src, p).sent[i].Apply?
    ensures r < p && |At(src, r).sent| == i && src[r].RollForward?
  {
    hide Exec, At;
    if p == 0 {
      NothingHandedOver(src);
    } else {
      AtNext(src, p - 1);
      assert src[p - 1] in src;
      if i < |At(src, p - 1).sent| {
        r := HandedOver(src, p - 1, i);
      } else {
        r := p - 1;
      }
    }
  }

  lemma NothingHandedOver(src: seq<Action>)
    ensures At(src, 0).sent == []
  {
    assert src[..0] == [];
  }

  /** Running on from one point of the source's list to another. */
  lemma FromTo(src: seq<Action>, from: nat, to: nat, s: State)
    requires from <= to <= |src| && Exec(INIT, src).Some? && SameSource(At(src, from), s) && forall a <- src :: OfSource(a)
    ensures Exec(s, src[from..to]).Some?
    ensures SameSource(At(src, to), Exec(s, src[from..to]).value) && SameSink(s, Exec(s, src[from..to]).value)
  {
    hide Exec, SameSource, SameSink;
    assert src == src[..to] + src[to..] && src[..to] == src[..from] + src[from..to];
    ExecSplit(INIT, src[..to], src[to..]);
    ExecSplit(INIT, src[..from], src[from..to]);
    SourceRuns(At(src, from), s, src[from..to]);
  }

  // ---- Exactly when ----

  /** How many actions of the source precede each thing the sink does with one message. */
  datatype Look = Look(receive: nat, tip: nat, flag: nat, decide: nat)

  /** The sink can do so with message `k`: it was handed over by then. */
  predicate Ordered(src: seq<Action>, k: nat, l: Look) {
    l.receive <= l.tip <= l.flag <= l.decide <= |src| && k < |At(src, l.receive).sent|
  }

  /** The message is a block at or above the tip published when the sink loads it. */
  predicate ReachesTip(src: seq<Action>, k: nat, l: Look)
    requires Ordered(src, k, l)
  {
    var m, tip := At(src, l.receive).sent[k], At(src, l.tip).nodeTip;
    m.Apply? && tip > 0 && m.slot >= tip
  }

  /** The message is a block at or above the published slot, and the flag was up when the sink loaded it. */
  predicate Drains(src: seq<Action>, k: nat, l: Look)
    requires Ordered(src, k, l)
  {
    var m := At(src, l.receive).sent[k];
    m.Apply? && At(src, l.flag).atTip && m.slot >= At(src, l.decide).sentSlot
  }

  /** The sink goes on catching up after the message. */
  predicate GoesOn(src: seq<Action>, k: nat, l: Look) {
    Ordered(src, k, l) && !ReachesTip(src, k, l) && !Drains(src, k, l)
  }

  /** The sink takes the queue for drained although more was handed over before the Await it saw. */
  predicate Mistakes(src: seq<Action>, k: nat, l: Look) {
    Ordered(src, k, l) && Drains(src, k, l) && k + 1 < At(src, l.flag).mark
  }

  function Until(looks: seq<Look>): nat {
    if looks == [] then 0 else looks[|looks| - 1].decide
  }

  /** One message after the other, going on after each. */
  predicate Going(src: seq<Action>, looks: seq<Look>) {
    && (forall k | 0 <= k < |looks| :: GoesOn(src, k, looks[k]))
    && (forall k | 0 < k < |looks| :: looks[k - 1].decide <= looks[k].receive)
  }

  /** Points among the source's actions at which the sink goes on after every message but the last, and errs there. */
  predicate Overlooks(src: seq<Action>, looks: seq<Look>) {
    looks != [] &&
      var n := |looks| - 1;
      Going(src, looks[..n]) && Until(looks[..n]) <= looks[n].receive && Mistakes(src, n, looks[n])
  }

  lemma LookMore(src: seq<Action>, x: Action, k: nat, l: Look)
    requires Ordered(src, k, l)
    ensures Ordered(src + [x], k, l)
    ensures ReachesTip(src + [x], k, l) == ReachesTip(src, k, l) && Drains(src + [x], k, l) == Drains(src, k, l)
    ensures At(src + [x], l.flag).mark == At(src, l.flag).mark
  {
    hide At;
    AtMore(src, x, l.receive);
    AtMore(src, x, l.tip);
    AtMore(src, x, l.flag);
    AtMore(src, x, l.decide);
  }

  lemma GoingMore(src: seq<Action>, x: Action, looks: seq<Look>)
    requires Going(src, looks)
    ensures Going(src + [x], looks) && Until(looks) <= |src|
  {
    hide Ordered, ReachesTip, Drains;
    forall k | 0 <= k < |looks|
      ensures GoesOn(src + [x], k, looks[k]) && looks[k].decide <= |src|
    {
      assert GoesOn(src, k, looks[k]);
      LookMore(src, x, k, looks[k]);
      OrderedEnds(src, k, looks[k]);
    }
  }

  lemma OrderedEnds(src: seq<Action>, k: nat, l: Look)
    requires Ordered(src, k, l)
    ensures l.decide <= |src|
  {
  }

  lemma OverlooksMore(src: seq<Action>, x: Action, looks: seq<Look>)
    requires Overlooks(src, looks)
    ensures Overlooks(src + [x], looks)
  {
    hide Going, Ordered, ReachesTip, Drains;
    var n := |looks| - 1;
    GoingMore(src, x, looks[..n]);
    LookMore(src, x, n, looks[n]);
  }

  lemma GoingOne(src: seq<Action>, looks: seq<Look>, l: Look)
    requires Going(src, looks) && Until(looks) <= l.receive && GoesOn(src, |looks|, l)
    ensures Going(src, looks + [l]) && Until(looks + [l]) == l.decide
  {
    hide GoesOn;
  }

  // ---- Every interleaving leaves such points ----

  ghost predicate Overlooked(src: seq<Action>) {
    exists looks :: Overlooks(src, looks)
  }

  /** The points so far: of the messages done with, and of the one the sink is at. */
  ghost predicate Traced(s: State, src: seq<Action>, looks: seq<Look>, at: Look) {
    && (s.catchingUp <==> s.end.None?) && (!s.sink.Waiting? ==> s.catchingUp)
    && (s.catchingUp ==> Going(src, looks) && Until(looks) <= |src| && s.applied == |looks| + (if s.sink.Waiting? then 0 else 1))
    && (!s.sink.Waiting? ==> Until(looks) <= at.receive <= |src| && |looks| < |At(src, at.receive).sent|)
    && (s.sink.TipLoaded? || s.sink.FlagLoaded? ==> at.receive <= at.tip <= |src| && At(src, at.tip).nodeTip == s.sink.tip)
    && (s.sink.FlagLoaded? ==> at.tip <= at.flag <= |src| && At(src, at.flag).atTip == s.sink.atTip && At(src, at.flag).mark == s.sink.mark)
    && (TooEarly(s.end) ==> Overlooked(src))
  }

  lemma SourceTraces(s: State, src: seq<Action>, x: Action, looks: seq<Look>, at: Look)
    requires Traced(s, src, looks, at) && OfSource(x) && Enabled(s, x)
    ensures Traced(Step(s, x), src + [x], looks, at)
  {
    hide At, Going, Overlooks;
    if s.catchingUp {
      GoingMore(src, x, looks);
    }
    if !s.sink.Waiting? {
      AtMore(src, x, at.receive);
    }
    if s.sink.TipLoaded? || s.sink.FlagLoaded? {
      AtMore(src, x, at.tip);
    }
    if s.sink.FlagLoaded? {
      AtMore(src, x, at.flag);
    }
    if looks' :| Overlooks(src, looks') {
      OverlooksMore(src, x, looks');
    }
  }

  lemma SinkTraces(s: State, src: seq<Action>, x: Action, looks: seq<Look>, at: Look) returns (looks': seq<Look>, at': Look)
    requires Inv(s) && Traced(s, src, looks, at) && !OfSource(x) && Enabled(s, x) && SameSource(At(src, |src|), s)
    requires Exec(INIT, src).Some? && forall a <- src :: OfSource(a)
    ensures Traced(Step(s, x), src, looks', at')
  {
    hide At, Exec, Going, GoesOn, Overlooks, LastBlock, Climbs, NoReset;
    var n := |src|;
    looks', at' := looks, at;
    match x
    case Receive =>
      if s.catchingUp {
        if s.sent[s.applied].Apply? {
          at' := Look(n, n, n, n);
        } else {
          looks' := looks + [Look(n, n, n, n)];
          ResetGoesOn(src, s.applied, n);
          GoingOne(src, looks, Look(n, n, n, n));
        }
      }
    case LoadTip =>
      at' := at.(tip := n);
    case LoadFlag =>
      at' := at.(flag := n);
    case Decide =>
      var l := at.(decide := n);
      SentGrows(src, at.receive, n);
      LookIs(s, src, |looks|, l);
      if Step(s, x).end.None? {
        looks' := looks + [l];
        GoingOne(src, looks, l);
      } else if TooEarly(Step(s, x).end) {
        OverlooksOne(src, looks, l);
      }
    case _ =>
  }

  lemma ResetGoesOn(src: seq<Action>, k: nat, n: nat)
    requires n <= |src| && k < |At(src, n).sent| && At(src, n).sent[k].Reset?
    ensures GoesOn(src, k, Look(n, n, n, n))
  {
    hide At;
  }

  /** What the sink has loaded is what the points say. */
  lemma LookIs(s: State, src: seq<Action>, k: nat, l: Look)
    requires Inv(s) && s.sink.FlagLoaded? && s.catchingUp && s.applied == k + 1 && SameSource(At(src, |src|), s)
    requires l.receive <= l.tip <= l.flag <= l.decide == |src| && k < |At(src, l.receive).sent|
    requires At(src, l.receive).sent <= At(src, |src|).sent
    requires At(src, l.tip).nodeTip == s.sink.tip && At(src, l.flag).atTip == s.sink.atTip && At(src, l.flag).mark == s.sink.mark
    ensures Ordered(src, k, l)
    ensures ReachesTip(src, k, l) <==> s.sink.tip > 0 && s.sink.slot >= s.sink.tip
    ensures Drains(src, k, l) <==> s.sink.atTip && s.sink.slot >= s.sentSlot
    ensures GoesOn(src, k, l) <==> Step(s, Decide).catchingUp
    ensures !GoesOn(src, k, l) && TooEarly(Step(s, Decide).end) ==> Mistakes(src, k, l)
  {
    hide At, LastBlock, Climbs, NoReset;
  }

  lemma OverlooksOne(src: seq<Action>, looks: seq<Look>, l: Look)
    requires Going(src, looks) && Until(looks) <= l.receive && Mistakes(src, |looks|, l)
    ensures Overlooked(src)
  {
    hide Going, Mistakes;
    assert (looks + [l])[..|looks|] == looks;
    assert Overlooks(src, looks + [l]);
  }

  lemma {:induction false} Traces(actions: seq<Action>) returns (looks: seq<Look>, at: Look)
    requires Exec(INIT, actions).Some?
    ensures Traced(Exec(INIT, actions).value, SourceOf(actions), looks, at)
  {
    hide Exec, Step, Enabled, SameSource, Traced, At, Told;
    if actions == [] {
      looks, at := [], Look(0, 0, 0, 0);
      NothingTraced(at);
    } else {
      var n := |actions| - 1;
      var x := actions[n];
      assert actions == actions[..n] + [x];
      ExecLast(INIT, actions[..n], x);
      looks, at := Traces(actions[..n]);
      var s, src := Exec(INIT, actions[..n]).value, SourceOf(actions[..n]);
      if OfSource(x) {
        assert SourceOf(actions) == src + [x];
        SourceTraces(s, src, x, looks, at);
      } else {
        assert SourceOf(actions) == src;
        NothingTold();
        RunKeeps(INIT, actions[..n]);
        EarlyHasCause(actions[..n]);
        looks, at := SinkTraces(s, src, x, looks, at);
      }
    }
  }

  lemma NothingTraced(at: Look)
    ensures Exec(INIT, []) == Some(INIT) && Traced(INIT, [], [], at)
  {
  }

  // ---- Such points give an interleaving ----

  /** The source's actions up to a point, and then one of the sink's. */
  lemma RunThen(src: seq<Action>, from: nat, to: nat, s: State, x: Action) returns (mid: State)
    requires from <= to <= |src| && Exec(INIT, src).Some? && SameSource(At(src, from), s) && forall a <- src :: OfSource(a)
    requires !OfSource(x)
    ensures SameSource(At(src, to), mid) && SameSink(s, mid)
    ensures Enabled(mid, x) ==>
              Exec(s, src[from..to] + [x]) == Some(Step(mid, x)) && SameSource(At(src, to), Step(mid, x))
    ensures SourceOf(src[from..to] + [x]) == src[from..to]
  {
    hide Exec, At, Step, Enabled, SameSource, SameSink, SourceOf;
    FromTo(src, from, to, s);
    mid := Exec(s, src[from..to]).value;
    ExecLast(s, src[from..to], x);
    if Enabled(mid, x) {
      SinkStep(mid, x);
      SameSourceThrough(At(src, to), mid, Step(mid, x));
    }
    SourceConcat(src[from..to], [x]);
    SourceAll(src[from..to]);
    NoSource([x]);
  }

  /** The sink waits, having applied `k` messages and still catching up. */
  predicate WaitsAfter(s: State, k: nat) {
    s.sink.Waiting? && s.catchingUp && s.end.None? && s.applied == k
  }

  /** What the sink has taken and loaded of a block before it decides. */
  function Loading(src: seq<Action>, from: nat, k: nat, l: Look): seq<Action>
    requires Ordered(src, k, l) && from <= l.receive
  {
    (src[from..l.receive] + [Receive]) + (src[l.receive..l.tip] + [LoadTip]) + (src[l.tip..l.flag] + [LoadFlag])
  }

  /** What the two do from one message to the end of the next. */
  function Woven(src: seq<Action>, from: nat, k: nat, l: Look): seq<Action>
    requires Ordered(src, k, l) && from <= l.receive
  {
    if At(src, l.receive).sent[k].Apply? then Loading(src, from, k, l) + (src[l.flag..l.decide] + [Decide])
    else src[from..l.receive] + [Receive]
  }

  function Ends(src: seq<Action>, k: nat, l: Look): nat
    requires Ordered(src, k, l)
  {
    if At(src, l.receive).sent[k].Apply? then l.decide else l.receive
  }

  lemma ResetWoven(src: seq<Action>, from: nat, k: nat, l: Look, s: State) returns (r: State)
    requires Ordered(src, k, l) && from <= l.receive && At(src, l.receive).sent[k].Reset?
    requires Exec(INIT, src).Some? && SameSource(At(src, from), s) && (forall a <- src :: OfSource(a)) && WaitsAfter(s, k)
    ensures Exec(s, Woven(src, from, k, l)) == Some(r) && SameSource(At(src, Ends(src, k, l)), r) && WaitsAfter(r, k + 1)
    ensures SourceOf(Woven(src, from, k, l)) == src[from..Ends(src, k, l)]
  {
    hide Exec, At, SourceOf;
    var mid := RunThen(src, from, l.receive, s, Receive);
    r := Step(mid, Receive);
  }

  lemma BlockLoaded(src: seq<Action>, from: nat, k: nat, l: Look, s: State) returns (r: State)
    requires Ordered(src, k, l) && from <= l.receive && At(src, l.receive).sent[k].Apply?
    requires Exec(INIT, src).Some? && SameSource(At(src, from), s) && (forall a <- src :: OfSource(a)) && WaitsAfter(s, k)
    ensures Exec(s, Loading(src, from, k, l)) == Some(r) && SameSource(At(src, l.flag), r)
    ensures r.catchingUp && r.end.None? && r.applied == k + 1
    ensures var f := At(src, l.flag);
            r.sink == FlagLoaded(At(src, l.receive).sent[k].slot, At(src, l.tip).nodeTip, f.atTip, f.mark)
    ensures SourceOf(Loading(src, from, k, l)) == src[from..l.flag]
  {
    hide Exec, At, SourceOf;
    var a1, a2, a3 := src[from..l.receive] + [Receive], src[l.receive..l.tip] + [LoadTip], src[l.tip..l.flag] + [LoadFlag];
    var m0 := RunThen(src, from, l.receive, s, Receive);
    var s1 := Step(m0, Receive);
    var m1 := RunThen(src, l.receive, l.tip, s1, LoadTip);
    var s2 := Step(m1, LoadTip);
    var m2 := RunThen(src, l.tip, l.flag, s2, LoadFlag);
    r := Step(m2, LoadFlag);
    ExecSplit(s, a1, a2);
    ExecSplit(s, a1 + a2, a3);
    SourceConcat(a1 + a2, a3);
    SourceConcat(a1, a2);
    assert src[from..l.receive] + src[l.receive..l.tip] + src[l.tip..l.flag] == src[from..l.flag];
  }

  lemma BlockWoven(src: seq<Action>, from: nat, k: nat, l: Look, s: State) returns (r: State)
    requires Ordered(src, k, l) && from <= l.receive && At(src, l.receive).sent[k].Apply?
    requires Exec(INIT, src).Some? && SameSource(At(src, from), s) && (forall a <- src :: OfSource(a)) && WaitsAfter(s, k)
    ensures Exec(s, Woven(src, from, k, l)) == Some(r) && SameSource(At(src, Ends(src, k, l)), r)
    ensures GoesOn(src, k, l) ==> WaitsAfter(r, k + 1)
    ensures Mistakes(src, k, l) ==> TooEarly(r.end)
    ensures SourceOf(Woven(src, from, k, l)) == src[from..Ends(src, k, l)]
  {
    hide Exec, At, SourceOf, Loading;
    var loaded := BlockLoaded(src, from, k, l, s);
    var mid := RunThen(src, l.flag, l.decide, loaded, Decide);
    r := Step(mid, Decide);
    ExecSplit(s, Loading(src, from, k, l), src[l.flag..l.decide] + [Decide]);
    SourceConcat(Loading(src, from, k, l), src[l.flag..l.decide] + [Decide]);
    assert src[from..l.flag] + src[l.flag..l.decide] == src[from..l.decide];
  }

  /** Every run of points is taken by some interleaving. */
  lemma {:induction false} Weaves(src: seq<Action>, looks: seq<Look>) returns (actions: seq<Action>, upTo: nat)
    requires Exec(INIT, src).Some? && (forall a <- src :: OfSource(a)) && Going(src, looks)
    ensures upTo <= Until(looks) && upTo <= |src| && SourceOf(actions) == src[..upTo]
    ensures Exec(INIT, actions).Some? && SameSource(At(src, upTo), Exec(INIT, actions).value)
    ensures WaitsAfter(Exec(INIT, actions).value, |looks|)
  {
    hide Exec, At, SourceOf, SameSource, WaitsAfter, Woven;
    if looks == [] {
      actions, upTo := [], 0;
      StartsWaiting(src);
    } else {
      var n := |looks| - 1;
      var l := looks[n];
      var before, from := Weaves(src, looks[..n]);
      assert GoesOn(src, n, l);
      var s := Exec(INIT, before).value;
      var r: State;
      if At(src, l.receive).sent[n].Apply? {
        r := BlockWoven(src, from, n, l, s);
      } else {
        r := ResetWoven(src, from, n, l, s);
      }
      actions, upTo := before + Woven(src, from, n, l), Ends(src, n, l);
      ExecSplit(INIT, before, Woven(src, from, n, l));
      SourceConcat(before, Woven(src, from, n, l));
      assert src[..from] + src[from..upTo] == src[..upTo];
    }
  }

  lemma StartsWaiting(src: seq<Action>)
    ensures SourceOf([]) == src[..0] && Exec(INIT, []) == Some(INIT) && SameSource(At(src, 0), INIT) && WaitsAfter(INIT, 0)
  {
    assert src[..0] == [];
  }

  lemma OverlookedEndsEarly(src: seq<Action>, looks: seq<Look>) returns (actions: seq<Action>)
    requires Exec(INIT, src).Some? && (forall a <- src :: OfSource(a)) && Overlooks(src, looks)
    ensures SourceOf(actions) == src && EndsEarly(actions)
  {
    hide Exec, At, SourceOf, SameSource, SameSink, WaitsAfter, Woven, Going;
    var n := |looks| - 1;
    var l := looks[n];
    var before, from := Weaves(src, looks[..n]);
    var r := BlockWoven(src, from, n, l, Exec(INIT, before).value);
    var woven := Woven(src, from, n, l);
    ExecSplit(INIT, before, woven);
    SourceConcat(before, woven);
    assert src[..from] + src[from..l.decide] == src[..l.decide];
    FromTo(src, l.decide, |src|, r);
    assert src[l.decide..|src|] == src[l.decide..] && src[..l.decide] + src[l.decide..] == src;
    actions := before + woven + src[l.decide..];
    ExecSplit(INIT, before + woven, src[l.decide..]);
    SourceConcat(before + woven, src[l.decide..]);
    SourceAll(src[l.decide..]);
    EndStays(r, Exec(INIT, actions).value);
  }

  lemma EndStays(a: State, b: State)
    requires SameSink(a, b)
    ensures a.end == b.end
  {
  }

  /**
   * Whatever the source does, some interleaving with the sink ends catch-up too early exactly when there
   * are points among the source's actions at which the sink can look at the messages one after the other,
   * go on after each but the last, and at the last find the flag up and the published slot not above it
   * although more was handed over before the Await that raised the flag.
   */
  lemma EarlyIffOverlooked(src: seq<Action>)
    requires Exec(INIT, src).Some? && forall a <- src :: OfSource(a)
    ensures (exists actions :: SourceOf(actions) == src && EndsEarly(actions)) <==> Overlooked(src)
  {
    hide Exec, At, SourceOf, Overlooks;
    if actions :| SourceOf(actions) == src && EndsEarly(actions) {
      var looks, at := Traces(actions);
    }
    if looks :| Overlooks(src, looks) {
      var actions := OverlookedEndsEarly(src, looks);
    }
  }

  // ---- A cause, if the sink can keep up before it ----

  /** Every block lies below the tip the node reports with it. */
  predicate BehindTip(src: seq<Action>) {
    forall a <- src :: a.RollForward? ==> a.slot < a.tip
  }

  /** A block being published lies below the tip reported with it. */
  predicate Publishes(s: State) {
    && (s.source.BlockSent? || s.source.TipStored? || s.source.SlotStored? ==> s.sent != [] && s.sent[|s.sent| - 1].Apply?)
    && (s.source.BlockSent? ==> s.sent[|s.sent| - 1].slot < s.source.tip)
    && (s.source.TipStored? || s.source.SlotStored? ==> s.sent[|s.sent| - 1].slot < s.nodeTip)
  }

  /** How many messages the source is done with. */
  function Done(s: State): nat {
    if s.source.Idle? || s.source.ResetSent? || s.sent == [] then |s.sent| else |s.sent| - 1
  }

  /** Looking at each message as soon as the source is done with it, the sink goes on. */
  lemma {:induction false} KeepsUp(src: seq<Action>, n: nat) returns (looks: seq<Look>)
    requires n <= |src| && Exec(INIT, src).Some? && BehindTip(src[..n]) && forall a <- src :: OfSource(a)
    ensures Going(src, looks) && Until(looks) <= n && |looks| == Done(At(src, n)) && Publishes(At(src, n))
    decreases n
  {
    hide Exec, At, Going;
    if n == 0 {
      looks := [];
      NothingPublished(src);
    } else {
      assert src[..n][..n - 1] == src[..n - 1] && src[..n][n - 1] == src[n - 1] && src[n - 1] in src && src[n - 1] in src[..n];
      assert forall a <- src[..n - 1] :: a in src[..n];
      looks := KeepsUp(src, n - 1);
      AtNext(src, n - 1);
      if src[n - 1].ClearFlag? || src[n - 1].RollBackward? {
        var l := Look(n, n, n, n);
        GoingOne(src, looks, l);
        looks := looks + [l];
      }
    }
  }

  lemma NothingPublished(src: seq<Action>)
    ensures Going(src, []) && Done(At(src, 0)) == 0 && Publishes(At(src, 0))
  {
    assert src[..0] == [];
  }

  /**
   * A cause suffices when the blocks handed over before its block were behind their tips; its own block
   * and all later ones may be at the tip.
   */
  lemma CauseSuffices(src: seq<Action>, i: nat, p: nat, q: nat, r: nat)
    requires Exec(INIT, src).Some? && (forall a <- src :: OfSource(a)) && CauseAt(src, i, p, q)
    requires r < p && |At(src, r).sent| == i && src[r].RollForward? && BehindTip(src[..r])
    ensures exists actions :: SourceOf(actions) == src && EndsEarly(actions)
  {
    hide Exec, At, Going, SourceOf;
    AtNext(src, r);
    AtNext(src, p);
    var looks := KeepsUp(src, r);
    OverlooksOne(src, looks, Look(p + 1, p + 1, p + 1, q));
    EarlyIffOverlooked(src);
  }

  // ---- On a run of a real node ----

  /** An Await follows when the chain handed over ends at the tip last reported, and no block lies above its tip. */
  predicate NodeLike(src: seq<Action>) {
    forall k | 0 <= k < |src| ::
      && (src[k].Await? ==> At(src, k).nodeTip == Last(At(src, k).sent))
      && (src[k].RollForward? ==> src[k].slot <= src[k].tip)
  }

  /** What a node hands over when a fork that ended at slot 20 gives way to one that ends at slot 18. */
  const FORK := [RollBackward(5, 20), StoreTip] + Forward(10, 20) + Forward(20, 20)
                + ([RollBackward(5, 18), StoreTip] + Forward(8, 18) + Forward(18, 18))

  lemma ForkStates()
    ensures |FORK| == 20 && (forall a <- FORK :: OfSource(a)) && Exec(INIT, FORK[..6]).Some? && Exec(INIT, FORK).Some?
    ensures var s := Exec(INIT, FORK[..6]).value; s.sent == [Reset(5), Apply(10)]
    ensures var s := Exec(INIT, FORK).value;
            s.sent == [Reset(5), Apply(10), Apply(20), Reset(5), Apply(8), Apply(18)] && s.nodeTip == 18 && s.sentSlot == 18 && s.source.Idle?
  {
    hide Exec, Step, Enabled;
    var b1, b2 := [RollBackward(5, 20), StoreTip], [RollBackward(5, 18), StoreTip];
    BackDone(INIT, 5, 20);
    var s1 := INIT.(sent := [] + [Reset(5)], nodeTip := 20);
    ForwardDone(s1, 10, 20);
    ExecSplit(INIT, b1, Forward(10, 20));
    var s2 := s1.(sent := s1.sent + [Apply(10)], sentSlot := 10);
    assert FORK[..6] == b1 + Forward(10, 20);
    ForwardDone(s2, 20, 20);
    ExecSplit(INIT, b1 + Forward(10, 20), Forward(20, 20));
    var s3 := s2.(sent := s2.sent + [Apply(20)], sentSlot := 20);
    BackDone(s3, 5, 18);
    var s4 := s3.(sent := s3.sent + [Reset(5)], nodeTip := 18);
    ForwardDone(s4, 8, 18);
    ExecSplit(s3, b2, Forward(8, 18));
    var s5 := s4.(sent := s4.sent + [Apply(8)], sentSlot := 8);
    ForwardDone(s5, 18, 18);
    ExecSplit(s3, b2 + Forward(8, 18), Forward(18, 18));
    ExecSplit(INIT, b1 + Forward(10, 20) + Forward(20, 20), b2 + Forward(8, 18) + Forward(18, 18));
  }

  /**
   * After the intersection blocks 10 and 20, the tip; a rollback to 5, blocks 8 and 18, the new tip; then
   * Await. A sink that comes to block 20 only now finds 18 published and takes the queue for drained.
   */
  lemma QueuedRollbackEndsEarly()
    ensures exists actions :: NodeLike(SourceOf(actions)) && EndsEarly(actions)
  {
    hide Exec, At, Forward, SourceOf, EndsEarly;
    var src := FORK + [Await];
    ForkStates();
    ExecLast(INIT, FORK, Await);
    assert src[..20] == FORK && src[..6] == FORK[..6];
    AtIs(src, 6);
    AtIs(src, 20);
    AtNext(src, 20);
    ForkActions(src);
    CauseSuffices(src, 2, 20, 21, 6);
    var actions :| SourceOf(actions) == src && EndsEarly(actions);
  }

  lemma ForkActions(src: seq<Action>)
    requires src == FORK + [Await] && |FORK| == 20
    ensures src[6].RollForward? && src[20].Await? && BehindTip(src[..6])
    ensures forall k | 0 <= k < 20 :: !src[k].Await? && (src[k].RollForward? ==> src[k].slot <= src[k].tip)
  {
  }

  // ---- Rollbacks before the first block ----

  /** No rollback follows a block: those to the intersection come first. */
  predicate RollsBackFirst(src: seq<Action>) {
    forall j, k | 0 <= j < k < |src| :: src[j].RollForward? ==> !src[k].RollBackward?
  }

  /** Once a block was handed over only blocks are. */
  lemma {:induction false} BlocksLast(src: seq<Action>, n: nat)
    requires n <= |src| && Exec(INIT, src).Some? && RollsBackFirst(src) && forall a <- src :: OfSource(a)
    ensures forall j, k | 0 <= j < k < |At(src, n).sent| :: At(src, n).sent[j].Apply? ==> At(src, n).sent[k].Apply?
    ensures (exists m <- At(src, n).sent :: m.Apply?) ==> exists j | 0 <= j < n :: src[j].RollForward?
    decreases n
  {
    hide Exec, At;
    if n == 0 {
      NothingHandedOver(src);
    } else {
      BlocksLast(src, n - 1);
      AtNext(src, n - 1);
      assert src[n - 1] in src;
      if src[n - 1].RollForward? {
        assert exists j | 0 <= j < n :: src[j].RollForward?;
      } else if j :| 0 <= j < n - 1 && src[j].RollForward? {
        assert !src[n - 1].RollBackward?;
      }
    }
  }

  lemma {:induction false} MarkGrows(src: seq<Action>, p: nat, q: nat)
    requires p < q <= |src| && Exec(INIT, src).Some? && src[p].Await? && forall a <- src :: OfSource(a)
    ensures At(src, q).mark >= |At(src, p).sent|
    decreases q
  {
    hide Exec, At;
    AtNext(src, q - 1);
    assert src[q - 1] in src;
    if p < q - 1 {
      MarkGrows(src, p, q - 1);
      SentGrows(src, p, q - 1);
    }
  }

  /** When no rollback follows a block there is no cause, so no interleaving ends too early. */
  lemma NoRollbackNoCause(src: seq<Action>, i: nat, p: nat, q: nat)
    requires Exec(INIT, src).Some? && RollsBackFirst(src) && forall a <- src :: OfSource(a)
    ensures !CauseAt(src, i, p, q)
  {
    hide Exec, At, LastBlock, Climbs;
    if p < q <= |src| && src[p].Await? && i + 1 < |At(src, p).sent| && At(src, p).sent[i].Apply? {
      MarkGrows(src, p, q);
      SentGrows(src, p, q);
      BlocksLast(src, q);
      assert src == src[..q] + src[q..];
      ExecSplit(INIT, src[..q], src[q..]);
      AtIs(src, q);
      RunKeeps(INIT, src[..q]);
      PublishedAbove(At(src, q), i);
    }
  }

  lemma AtIs(src: seq<Action>, k: nat)
    requires k <= |src| && Exec(INIT, src[..k]).Some?
    ensures At(src, k) == Exec(INIT, src[..k]).value && Inv(INIT)
  {
  }

  /** With only blocks handed over from a block on, the published slot is above it unless it is the last before the mark. */
  lemma PublishedAbove(s: State, i: nat)
    requires Inv(s) && i + 1 < s.mark && s.sent[i].Apply? && forall k | i < k < |s.sent| :: s.sent[k].Apply?
    ensures s.sentSlot > s.sent[i].slot
  {
    var n := Stored(s);
    LastIsBlock(s.sent[..n]);
    BlocksClimb(s.sent, i, n - 1);
  }

  // ---- An end at the tip ----

  /** At some point with the first `n` messages handed over, the published tip was `tip`. */
  ghost predicate Published(src: seq<Action>, n: nat, tip: nat) {
    exists p :: 0 <= p <= |src| && n <= |At(src, p).sent| && At(src, p).nodeTip == tip
  }

  /** At some point with the first `n` messages handed over, the last of them was a block at or above the published tip. */
  ghost predicate ReachedTip(src: seq<Action>, n: nat) {
    exists p :: 0 <= p <= |src| && ReachesAt(At(src, p), n)
  }

  predicate ReachesAt(s: State, n: nat) {
    0 < n <= |s.sent| && s.sent[n - 1].Apply? && 0 < s.nodeTip <= s.sent[n - 1].slot
  }

  ghost predicate TipTold(s: State, src: seq<Action>) {
    && (s.sink.TipLoaded? || s.sink.FlagLoaded? ==> Published(src, s.applied, s.sink.tip))
    && (s.end.Some? && !s.end.value.drained ==> ReachedTip(src, s.end.value.applied))
  }

  lemma SourceTellsTip(s: State, src: seq<Action>, x: Action)
    requires TipTold(s, src) && OfSource(x) && Enabled(s, x)
    ensures TipTold(Step(s, x), src + [x])
  {
    hide At;
    if p :| 0 <= p <= |src| && s.applied <= |At(src, p).sent| && (s.sink.TipLoaded? || s.sink.FlagLoaded?) && At(src, p).nodeTip == s.sink.tip {
      AtMore(src, x, p);
    }
    if s.end.Some? && !s.end.value.drained {
      var p :| 0 <= p <= |src| && ReachesAt(At(src, p), s.end.value.applied);
      AtMore(src, x, p);
    }
  }

  lemma SinkTellsTip(s: State, src: seq<Action>, x: Action)
    requires Inv(s) && TipTold(s, src) && !OfSource(x) && Enabled(s, x) && SameSource(At(src, |src|), s)
    requires Exec(INIT, src).Some? && forall a <- src :: OfSource(a)
    ensures TipTold(Step(s, x), src)
  {
    hide At, Exec, LastBlock, Climbs, NoReset;
    if x.LoadTip? {
      assert Published(src, s.applied, s.nodeTip);
    }
    if x.Decide? && s.sink.tip > 0 && s.sink.slot >= s.sink.tip {
      var p :| 0 <= p <= |src| && s.applied <= |At(src, p).sent| && At(src, p).nodeTip == s.sink.tip;
      SentGrows(src, p, |src|);
      assert ReachesAt(At(src, p), s.applied);
    }
  }

  lemma {:induction false} TipTraces(actions: seq<Action>)
    requires Exec(INIT, actions).Some?
    ensures TipTold(Exec(INIT, actions).value, SourceOf(actions))
  {
    hide Exec, Step, Enabled, SameSource, TipTold, At, Told;
    if actions == [] {
      NoTipTold();
    } else {
      var n := |actions| - 1;
      var x := actions[n];
      assert actions == actions[..n] + [x];
      ExecLast(INIT, actions[..n], x);
      TipTraces(actions[..n]);
      var s, src := Exec(INIT, actions[..n]).value, SourceOf(actions[..n]);
      if OfSource(x) {
        assert SourceOf(actions) == src + [x];
        SourceTellsTip(s, src, x);
      } else {
        assert SourceOf(actions) == src;
        NothingTold();
        RunKeeps(INIT, actions[..n]);
        EarlyHasCause(actions[..n]);
        SinkTellsTip(s, src, x);
      }
    }
  }

  lemma NoTipTold()
    ensures Exec(INIT, []) == Some(INIT) && TipTold(INIT, [])
  {
  }

  /** However the two interleave, an end that is not by draining is at a block that, once handed over, had reached the published tip. */
  lemma TipEndMeans(actions: seq<Action>)
    requires Exec(INIT, actions).Some?
    ensures var end := Exec(INIT, actions).value.end;
            end.Some? && !end.value.drained ==> ReachedTip(SourceOf(actions), end.value.applied)
  {
    TipTraces(actions);
  }

  // ---- Catch-up does end ----

  /** The source waits after an Await, or has published a tip the last block reached. */
  predicate Quiet(s: State) {
    && Inv(s) && s.source.Idle? && s.sent != [] && s.sent[|s.sent| - 1].Apply?
    && (s.atTip || 0 < s.nodeTip <= s.sent[|s.sent| - 1].slot)
  }

  lemma StaysQuiet(s: State, x: Action)
    requires Quiet(s) && !OfSource(x) && Enabled(s, x)
    ensures Quiet(Step(s, x)) && Step(s, x).sent == s.sent
  {
    hide LastBlock, Climbs, NoReset;
    SinkKeeps(s, x);
  }

  lemma Four(s: State, a: Action, b: Action, c: Action, d: Action)
    requires Enabled(s, a) && Enabled(Step(s, a), b) && Enabled(Step(Step(s, a), b), c) && Enabled(Step(Step(Step(s, a), b), c), d)
    ensures Exec(s, [a, b, c, d]) == Some(Step(Step(Step(Step(s, a), b), c), d))
  {
    hide Step, Enabled;
    Exec1(s, [a, b, c, d], 0);
    Exec1(Step(s, a), [a, b, c, d], 1);
    Exec1(Step(Step(s, a), b), [a, b, c, d], 2);
    Exec1(Step(Step(Step(s, a), b), c), [a, b, c, d], 3);
    ExecNone(Step(Step(Step(Step(s, a), b), c), d));
    assert [a, b, c, d][0..] == [a, b, c, d] && [a, b, c, d][4..] == [];
  }

  /** The sink takes the next message; after the last one it goes on no more. */
  lemma OneReceived(s: State) returns (actions: seq<Action>, r: State)
    requires Quiet(s) && s.sink.Waiting? && s.applied < |s.sent|
    ensures Exec(s, actions) == Some(r) && (forall a <- actions :: !OfSource(a))
    ensures Quiet(r) && r.sink.Waiting? && r.applied == s.applied + 1 && r.sent == s.sent
    ensures r.catchingUp ==> s.catchingUp && r.applied < |r.sent|
  {
    hide Exec, Quiet;
    LastPublished(s);
    var s1 := Step(s, Receive);
    StaysQuiet(s, Receive);
    if s1.sink.Waiting? {
      actions, r := [Receive], s1;
      OneStep(s, Receive);
    } else {
      var s2 := Step(s1, LoadTip);
      var s3 := Step(s2, LoadFlag);
      r := Step(s3, Decide);
      StaysQuiet(s1, LoadTip);
      StaysQuiet(s2, LoadFlag);
      StaysQuiet(s3, Decide);
      actions := [Receive, LoadTip, LoadFlag, Decide];
      Four(s, Receive, LoadTip, LoadFlag, Decide);
    }
  }

  lemma OneStep(s: State, x: Action)
    requires Enabled(s, x)
    ensures Exec(s, [x]) == Some(Step(s, x))
  {
    hide Step, Enabled;
    ExecLast(s, [], x);
    ExecNone(s);
    assert [] + [x] == [x];
  }

  lemma LastPublished(s: State)
    requires Quiet(s)
    ensures s.sentSlot == s.sent[|s.sent| - 1].slot && s.sent != [] && s.sent[|s.sent| - 1].Apply?
    ensures s.atTip || 0 < s.nodeTip <= s.sent[|s.sent| - 1].slot
  {
    assert s.sent[..|s.sent|] == s.sent;
    LastIsBlock(s.sent);
  }

  /**
   * When the source is quiet, the last message being a block and the node at its tip, the sink has ended
   * catch-up by the time it has applied what is queued, and needs no further block for it.
   */
  lemma {:induction false} EndsByItself(s: State) returns (actions: seq<Action>)
    requires Quiet(s) && s.sink.Waiting? && (s.catchingUp ==> s.applied < |s.sent|)
    ensures (forall a <- actions :: !OfSource(a)) && Exec(s, actions).Some?
    ensures var r := Exec(s, actions).value; r.applied == |s.sent| && !r.catchingUp && r.sent == s.sent
    decreases |s.sent| - s.applied
  {
    hide Exec, Step, Quiet;
    AppliedSent(s);
    if s.applied == |s.sent| {
      actions := [];
      ExecNone(s);
    } else {
      var first, r := OneReceived(s);
      var rest := EndsByItself(r);
      actions := first + rest;
      ExecSplit(s, first, rest);
    }
  }

  lemma AppliedSent(s: State)
    requires Quiet(s)
    ensures s.applied <= |s.sent|
  {
  }
}
