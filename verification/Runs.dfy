/** Whole runs of the sink: blocks, rollbacks and resets in any order. */
module Runs {
  import opened FeedLog
  import opened Feed
  import opened Chain
  import opened KeptLog
  import opened State

  /** What the source hands over. `rebuilt` is what the database would give should the rollback reach below the history. */
  datatype Message = Apply(block: Block) | Rollback(slot: nat, rebuilt: Snapshot)

  /** Where a run stands: what it started from, the surviving blocks, how many snapshots are retained, and the prunes. */
  datatype Track = Track(base: Snapshot, chain: seq<Block>, retained: nat, loaded: seq<Event>, floors: seq<nat>, floor: nat)

  /** The blocks up to a slot. */
  function Survivors(chain: seq<Block>, slot: nat): (r: seq<Block>)
    ensures |r| <= |chain|
  {
    if chain == [] || chain[|chain| - 1].slot <= slot then chain else Survivors(chain[..|chain| - 1], slot)
  }

  function TipSlot(base: Snapshot, chain: seq<Block>): nat {
    if chain == [] then base.slot else chain[|chain| - 1].slot
  }

  /** The slot of the oldest retained snapshot. */
  function OldestSlot(t: Track): nat {
    if t.retained == 0 || t.retained > |t.chain| then t.base.slot else t.chain[|t.chain| - t.retained].slot
  }

  function Step(t: Track, m: Message): (r: Track)
    requires |t.floors| == |t.chain|
    ensures |r.floors| == |r.chain|
  {
    match m
    case Apply(b) =>
      var low := Minus(b.slot, WINDOW);
      Track(t.base, t.chain + [b], if t.retained < MAX_HISTORY then t.retained + 1 else MAX_HISTORY,
            t.loaded, Raised(t.floors, low) + [low], Larger(t.floor, low))
    case Rollback(slot, rebuilt) =>
      if OldestSlot(t) <= slot then
        var left := Survivors(t.chain, slot);
        Track(t.base, left, Minus(t.retained, |t.chain| - |left|), Retain(t.loaded, EventSlot, AtMost(slot)), t.floors[..|left|], t.floor)
      else Track(rebuilt, [], 1, [], [], 0)
  }

  function After(t: Track, messages: seq<Message>): (r: Track)
    requires |t.floors| == |t.chain|
    ensures |r.floors| == |r.chain|
  {
    if messages == [] then t else Step(After(t, messages[..|messages| - 1]), messages[|messages| - 1])
  }

  /** The block goes on top of what survives when it arrives. */
  ghost predicate Fits(t: Track, m: Message) {
    m.Apply? ==> m.block.slot > TipSlot(t.base, t.chain) && m.block.Listed()
  }

  ghost predicate Climbing(t: Track, messages: seq<Message>)
    requires |t.floors| == |t.chain|
  {
    forall i | 0 <= i < |messages| :: Fits(After(t, messages[..i]), messages[i])
  }

  lemma {:induction false} SurvivorsAre(chain: seq<Block>, k: nat, slot: nat)
    requires Survive(chain, k, slot)
    ensures Survivors(chain, slot) == chain[..k]
  {
    if chain != [] && chain[|chain| - 1].slot > slot {
      var n := |chain| - 1;
      SurvivorsAre(chain[..n], k, slot);
      assert chain[..n][..k] == chain[..k];
    } else {
      assert chain[..k] == chain;
    }
  }

  lemma AfterMore(t: Track, messages: seq<Message>, i: nat)
    requires |t.floors| == |t.chain| && i < |messages|
    ensures After(t, messages[..i + 1]) == Step(After(t, messages[..i]), messages[i])
  {
    hide Step;
    assert messages[..i + 1][..i] == messages[..i];
  }

  lemma CurrentIs(st: State)
    requires st.Valid() && st.history != []
    ensures st.history[|st.history| - 1] == Fold(st.env, st.base, st.chain)
    ensures st.history[|st.history| - 1].slot == TipSlot(st.base, st.chain)
  {
    hide Fold, Held;
    assert st.chain[..|st.chain|] == st.chain;
    VersionSlot(st.env, st.base, st.chain, st.history, |st.history| - 1);
  }

  ghost function Of(st: State): (t: Track)
    requires |st.floors| == |st.chain|
    reads st
    ensures |t.floors| == |t.chain|
  {
    Track(st.base, st.chain, |st.history|, st.loaded, st.floors, st.floor)
  }

  /** The oldest retained snapshot decides whether a rollback stays within the history. */
  lemma Reaches(st: State, slot: nat)
    requires st.Valid() && st.history != []
    ensures (exists i | 0 <= i < |st.history| :: st.history[i].slot <= slot) <==> OldestSlot(Of(st)) <= slot
  {
    hide Fold, Held, FeedIndex.Valid;
    VersionSlot(st.env, st.base, st.chain, st.history, 0);
    forall i | 0 <= i < |st.history|
      ensures st.history[0].slot <= st.history[i].slot
    {
      VersionSlot(st.env, st.base, st.chain, st.history, i);
    }
  }

  /** One message. */
  method Handle(st: State, m: Message)
    requires st.Valid() && st.Settled() && st.history != [] && Fits(Of(st), m)
    modifies st, st.feed
    ensures st.Valid() && st.Settled() && st.history != []
    ensures st.feed == old(st.feed) || fresh(st.feed)
    ensures Of(st) == Step(old(Of(st)), m)
  {
    hide Chain.Next, Fold, LogOf, EventsOf, Retain, Held, Bounded, FeedIndex.Valid, Increasing, Versions, Survive, UpTo;
    CurrentIs(st);
    match m {
      case Apply(b) =>
        st.HandleApply(b);
      case Rollback(slot, rebuilt) =>
        ghost var before := st.chain;
        Reaches(st, slot);
        st.HandleReset(slot, rebuilt);
        if OldestSlot(old(Of(st))) <= slot {
          SurvivorsAre(before, |st.chain|, slot);
        }
    }
  }

  /**
   * After any run the current snapshot is the fold of the surviving chain over what the run last
   * started from, and the index is what each surviving block's events are left with by the prunes
   * since; it is the whole log from the highest boundary on exactly when no surviving block that
   * recorded something lies between its own boundary and the highest.
   */
  method Run(st: State, messages: seq<Message>)
    requires st.Valid() && st.Settled() && st.history != [] && Climbing(Of(st), messages)
    modifies st, st.feed
    ensures st.Valid() && st.Settled() && st.history != []
    ensures st.feed == old(st.feed) || fresh(st.feed)
    ensures Of(st) == After(old(Of(st)), messages)
    ensures st.history[|st.history| - 1] == Fold(st.env, After(old(Of(st)), messages).base, After(old(Of(st)), messages).chain)
    ensures var t := After(old(Of(st)), messages);
            && st.feed.kept == Held(st.env, t.base, t.chain, t.loaded, t.floors, t.floor)
            && (st.FeedExact() <==> NoneBetween(st.env, t.base, t.chain, t.floors, Constant(|t.chain|, t.floor)))
  {
    hide Fold, Held, Step, After, Fits, State.Valid, State.FeedExact, NoneBetween;
    ghost var t := Of(st);
    var done := 0;
    NothingAfter(t);
    while done < |messages|
      invariant 0 <= done <= |messages| && st.Valid() && st.Settled() && st.history != []
      invariant st.feed == old(st.feed) || fresh(st.feed)
      invariant |st.floors| == |st.chain| && Of(st) == After(t, messages[..done])
    {
      AfterMore(t, messages, done);
      assert Fits(After(t, messages[..done]), messages[done]);
      Handle(st, messages[done]);
      done := done + 1;
    }
    assert messages[..done] == messages;
    CurrentIs(st);
    st.ExactWhen();
    KeptIs(st);
  }

  lemma NothingAfter(t: Track)
    requires |t.floors| == |t.chain|
    ensures After(t, []) == t
  {
  }

  lemma KeptIs(st: State)
    requires st.Valid() && st.history != []
    ensures st.feed.kept == Held(st.env, st.base, st.chain, st.loaded, st.floors, st.floor)
  {
    hide Held, Bounded, FeedIndex.Valid, Increasing, Versions;
  }
}
