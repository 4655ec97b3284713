/**
  The voting-power ledger: what each representative holds in the current and in the
  following epochs, and what a sequence of updates does to it.
 */
module VotingPower {
  import opened Collections

  type Address = nat          // 0 is "no representative"

  const AMOUNT_LIMIT: nat := 0x1_0000_0000_0000_0000_0000_0000_0000_0000

  /** A 128-bit amount. */
  type Amount = x: nat | x < AMOUNT_LIMIT

  /** What a representative holds in one epoch. */
  datatype Levels = Levels(selfStake: Amount, locked: Amount, unlocked: Amount)

  const NOTHING := Levels(0, 0, 0)

  datatype PowerInfo = PowerInfo(current: Levels, next: Levels, epochModified: nat)

  type Powers = map<Address, PowerInfo>

  /** What the record says of an epoch it can still answer for. */
  function LevelsIn(info: PowerInfo, epoch: nat): Levels
  {
    if epoch <= info.epochModified then info.current else info.next
  }

  /** Unlocked proxied power in such an epoch. */
  function PowerIn(info: PowerInfo, epoch: nat): nat { LevelsIn(info, epoch).unlocked }

  /** A representative that is not on record has none. */
  function Power(powers: Powers, r: Address, epoch: nat): nat
  {
    if r in powers then PowerIn(powers[r], epoch) else 0
  }

  // ---------- VotingPowerManager ----------

  datatype Op = Add | Subtract

  function Opposite(op: Op): Op { if op == Add then Subtract else Add }

  function Signed(op: Op, diff: nat): int { if op == Add then diff else -(diff as int) }

  /** The overflow checks that halt the node. */
  predicate Fits(op: Op, data: Amount, diff: Amount)
  {
    if op == Add then data + diff < AMOUNT_LIMIT else diff <= data
  }

  /** One amount, changed. */
  function Apply(op: Op, data: Amount, diff: Amount): Option<Amount>
  {
    if Fits(op, data, diff) then Some(data + Signed(op, diff)) else None
  }

  /** TransitionIfNecessary. */
  function Transition(info: PowerInfo, epoch: nat): PowerInfo
  {
    if epoch > info.epochModified then PowerInfo(info.next, info.next, epoch) else info
  }

  /** Modify, for unlocked proxied stake. */
  function Modify(info: PowerInfo, op: Op, epoch: nat, diff: Amount): Option<PowerInfo>
  {
    var t := Transition(info, epoch);
    var current := if epoch < t.epochModified then Apply(op, t.current.unlocked, diff) else Some(t.current.unlocked);
    var next := Apply(op, t.next.unlocked, diff);
    if current.None? || next.None? then None
    else Some(t.(current := t.current.(unlocked := current.value), next := t.next.(unlocked := next.value)))
  }

  /** CanPrune: nothing left from the next epoch on, and no longer a representative. */
  predicate CanPrune(reps: set<Address>, rep: Address, info: PowerInfo)
  {
    info.next == NOTHING && rep !in reps
  }

  /** One call to the voting power manager. */
  datatype Change = Change(op: Op, rep: Address, diff: Amount, epoch: nat)

  /** AddUnlockedProxied and SubtractUnlockedProxied, with StoreOrPrune.  None: the node halts. */
  function Update(powers: Powers, reps: set<Address>, c: Change): Option<Powers>
  {
    if c.rep !in powers then None else
      match Modify(powers[c.rep], c.op, c.epoch, c.diff)
      case None => None
      case Some(info) => if CanPrune(reps, c.rep, info) then Some(powers - {c.rep}) else Some(powers[c.rep := info])
  }

  /** Calls made one after the other, up to the first that halts. */
  function UpdateAll(powers: Powers, reps: set<Address>, changes: seq<Change>): Option<Powers>
  {
    if changes == [] then Some(powers) else
      match Update(powers, reps, changes[0])
      case None => None
      case Some(p) => UpdateAll(p, reps, changes[1..])
  }

  lemma FirstChange(powers: Powers, reps: set<Address>, c: Change, rest: seq<Change>)
    ensures UpdateAll(powers, reps, [c] + rest) ==
      match Update(powers, reps, c)
      case None => None
      case Some(p) => UpdateAll(p, reps, rest)
  {
    assert ([c] + rest)[1..] == rest;
  }

  lemma OneChange(powers: Powers, reps: set<Address>, c: Change)
    ensures UpdateAll(powers, reps, [c]) == Update(powers, reps, c)
  {
    assert [c] == [c] + [];
    FirstChange(powers, reps, c, []);
  }

  lemma TwoChanges(powers: Powers, reps: set<Address>, c: Change, d: Change)
    ensures UpdateAll(powers, reps, [c, d]) ==
      match Update(powers, reps, c)
      case None => None
      case Some(p) => Update(p, reps, d)
  {
    assert [c, d] == [c] + [d];
    FirstChange(powers, reps, c, [d]);
    if Update(powers, reps, c).Some? { OneChange(Update(powers, reps, c).value, reps, d); }
  }

  // ---------- when a call halts ----------

  /** What the record must hold for a call not to halt: the change fits the next epochs and,
      if the record is already ahead of the call's epoch, the current one too. */
  predicate Room(info: PowerInfo, op: Op, epoch: nat, diff: Amount)
  {
    && 0 <= info.next.unlocked + Signed(op, diff) < AMOUNT_LIMIT
    && (epoch < info.epochModified ==> 0 <= info.current.unlocked + Signed(op, diff) < AMOUNT_LIMIT)
  }

  predicate Takes(powers: Powers, c: Change)
  {
    c.rep in powers && Room(powers[c.rep], c.op, c.epoch, c.diff)
  }

  /** The call leaves a record that is dropped. */
  predicate Drops(powers: Powers, reps: set<Address>, c: Change)
    requires c.rep in powers
  {
    && c.rep !in reps && powers[c.rep].next.selfStake == 0 && powers[c.rep].next.locked == 0
    && powers[c.rep].next.unlocked + Signed(c.op, c.diff) == 0
  }

  lemma UpdateHalts(powers: Powers, reps: set<Address>, c: Change)
    ensures Update(powers, reps, c).Some? <==> Takes(powers, c)
    ensures Takes(powers, c) ==> (c.rep !in Update(powers, reps, c).value <==> Drops(powers, reps, c))
  {
  }

  /** A change that was taken can be taken back in the next epoch. */
  lemma UndoTaken(powers: Powers, reps: set<Address>, c: Change)
    requires Takes(powers, c) && !Drops(powers, reps, c)
    ensures Takes(Update(powers, reps, c).value, Change(Opposite(c.op), c.rep, c.diff, c.epoch + 1))
  {
  }

  // ---------- what calls do to every epoch ----------

  function Later(x: nat, y: nat): nat { if x > y then x else y }

  /** What a call adds to the power of `r` in an epoch: only later epochs change. */
  function Effect(c: Change, r: Address, epoch: nat): int
  {
    if c.rep == r && epoch > c.epoch then Signed(c.op, c.diff) else 0
  }

  function Net(changes: seq<Change>, r: Address, epoch: nat): int
  {
    if changes == [] then 0 else Effect(changes[0], r, epoch) + Net(changes[1..], r, epoch)
  }

  predicate Touches(changes: seq<Change>, r: Address)
  {
    exists i :: 0 <= i < |changes| && changes[i].rep == r
  }

  /** A record still stored after a call: exactly the later epochs changed, and only if it was named; self stake and
      locked proxy of every epoch it can answer for stay. */
  lemma UpdateAffectsLater(powers: Powers, reps: set<Address>, c: Change, p': Powers, r: Address, ep: nat)
    requires Update(powers, reps, c) == Some(p') && r in p'
    requires r in powers ==> ep >= powers[r].epochModified
    requires ep >= c.epoch
    ensures r in powers && PowerIn(p'[r], ep) == PowerIn(powers[r], ep) + Effect(c, r, ep)
    ensures p'[r].epochModified
      == if r == c.rep then Later(powers[r].epochModified, c.epoch) else powers[r].epochModified
    ensures LevelsIn(p'[r], ep) == LevelsIn(powers[r], ep).(unlocked := PowerIn(p'[r], ep))
    ensures p'[r].next.selfStake == powers[r].next.selfStake && p'[r].next.locked == powers[r].next.locked
  {
  }

  /** A record that a call dropped: it was named, and held nothing after the call's epochs. */
  lemma DroppedHeldNothing(powers: Powers, reps: set<Address>, c: Change, p': Powers, r: Address, ep: nat)
    requires Update(powers, reps, c) == Some(p') && r in powers && r !in p'
    requires ep > powers[r].epochModified && ep > c.epoch
    ensures c.rep == r && r !in reps && powers[r].next.selfStake == 0 && powers[r].next.locked == 0
    ensures PowerIn(powers[r], ep) + Effect(c, r, ep) == 0
  {
  }

  lemma {:induction false} NetNothing(changes: seq<Change>, r: Address, ep: nat)
    requires !Touches(changes, r)
    ensures Net(changes, r, ep) == 0
  {
    if changes == [] {
    } else {
      assert changes[0].rep != r;
      forall i | 0 <= i < |changes[1..]| ensures changes[1..][i].rep != r {
        assert changes[1..][i] == changes[i + 1];
      }
      NetNothing(changes[1..], r, ep);
    }
  }

  /** No call is later than `e`. */
  ghost predicate Until(changes: seq<Change>, e: nat)
  {
    forall i :: 0 <= i < |changes| ==> changes[i].epoch <= e
  }

  lemma UntilRest(changes: seq<Change>, e: nat)
    requires changes != [] && Until(changes, e)
    ensures changes[0].epoch <= e && Until(changes[1..], e)
  {
  }

  /** A record still stored after all calls holds what it held plus their net effect. */
  lemma {:induction false} StoredHolds(powers: Powers, reps: set<Address>, changes: seq<Change>, p': Powers,
                                       r: Address, e: nat, ep: nat)
    requires UpdateAll(powers, reps, changes) == Some(p') && r in p' && Until(changes, e) && ep >= e
    requires r in powers ==> ep >= powers[r].epochModified
    ensures r in powers && PowerIn(p'[r], ep) == PowerIn(powers[r], ep) + Net(changes, r, ep)
    ensures p'[r].epochModified <= Later(powers[r].epochModified, e)
    ensures LevelsIn(p'[r], ep) == LevelsIn(powers[r], ep).(unlocked := PowerIn(p'[r], ep))
    ensures p'[r].next.selfStake == powers[r].next.selfStake && p'[r].next.locked == powers[r].next.locked
    decreases |changes|
  {
    if changes == [] {
    } else {
      UntilRest(changes, e);
      var p := Update(powers, reps, changes[0]).value;
      if r in p { UpdateAffectsLater(powers, reps, changes[0], p, r, ep); }
      StoredHolds(p, reps, changes[1..], p', r, e, ep);
    }
  }

  /** A record dropped on the way was named, is nobody's any more, and ended with nothing. */
  lemma {:induction false} DroppedHolds(powers: Powers, reps: set<Address>, changes: seq<Change>, p': Powers,
                                        r: Address, e: nat, ep: nat)
    requires UpdateAll(powers, reps, changes) == Some(p') && r in powers && r !in p' && Until(changes, e)
    requires ep > e && ep > powers[r].epochModified
    ensures Touches(changes, r) && r !in reps && powers[r].next.selfStake == 0 && powers[r].next.locked == 0
    ensures PowerIn(powers[r], ep) + Net(changes, r, ep) == 0
    decreases |changes|
  {
    UntilRest(changes, e);
    var c := changes[0];
    var p := Update(powers, reps, c).value;
    if r in p {
      UpdateAffectsLater(powers, reps, c, p, r, ep);
      DroppedHolds(p, reps, changes[1..], p', r, e, ep);
      var i :| 0 <= i < |changes[1..]| && changes[1..][i].rep == r;
      assert changes[i + 1].rep == r;
    } else {
      DroppedHeldNothing(powers, reps, c, p, r, ep);
      Gone(p, reps, changes[1..], p', r);
      NetNothing(changes[1..], r, ep);
    }
  }

  /** Who is not on record stays off it, and no call that succeeds names them. */
  lemma {:induction false} Gone(powers: Powers, reps: set<Address>, changes: seq<Change>, p': Powers, r: Address)
    requires UpdateAll(powers, reps, changes) == Some(p') && r !in powers
    ensures r !in p' && !Touches(changes, r)
    decreases |changes|
  {
    if changes == [] {
    } else {
      Gone(Update(powers, reps, changes[0]).value, reps, changes[1..], p', r);
      forall i | 0 <= i < |changes| ensures changes[i].rep != r {
        if i > 0 { assert changes[i] == changes[1..][i - 1]; }
      }
    }
  }

  /** A record that was named and is still stored is not one to drop. */
  lemma {:induction false} StoredIsWanted(powers: Powers, reps: set<Address>, changes: seq<Change>, p': Powers,
                                          r: Address)
    requires UpdateAll(powers, reps, changes) == Some(p') && Touches(changes, r) && r in p'
    ensures !CanPrune(reps, r, p'[r])
    decreases |changes|
  {
    var c, rest := changes[0], changes[1..];
    var p := Update(powers, reps, c).value;
    if Touches(rest, r) {
      StoredIsWanted(p, reps, rest, p', r);
    } else {
      var i :| 0 <= i < |changes| && changes[i].rep == r;
      if i > 0 { assert rest[i - 1].rep == r; }
      if r !in p { Gone(p, reps, rest, p', r); }
      Untouched(p, reps, rest, p', r);
    }
  }

  lemma {:induction false} Untouched(powers: Powers, reps: set<Address>, changes: seq<Change>, p': Powers, r: Address)
    requires UpdateAll(powers, reps, changes) == Some(p') && !Touches(changes, r)
    ensures r in powers <==> r in p'
    ensures r in powers ==> p'[r] == powers[r]
    decreases |changes|
  {
    if changes == [] {
    } else {
      assert changes[0].rep != r;
      forall i | 0 <= i < |changes[1..]| ensures changes[1..][i].rep != r {
        assert changes[1..][i] == changes[i + 1];
      }
      Untouched(Update(powers, reps, changes[0]).value, reps, changes[1..], p', r);
    }
  }

  /** The calls drop the record of `r` although it has power left in the epoch after `now`: it is
      named, nobody's any more, and holds nothing from now + 2 on. */
  predicate Strands(powers: Powers, reps: set<Address>, changes: seq<Change>, r: Address, now: nat)
  {
    && r in powers && Touches(changes, r) && r !in reps
    && powers[r].next.selfStake == 0 && powers[r].next.locked == 0
    && PowerIn(powers[r], now + 2) + Net(changes, r, now + 2) == 0
    && PowerIn(powers[r], now + 1) + Net(changes, r, now + 1) != 0
  }

  /** After calls that do not halt, everybody's power in every epoch after `now` is what it was plus
      the net effect, except that a stranded representative has lost it. */
  lemma PowerAfter(powers: Powers, reps: set<Address>, changes: seq<Change>, p': Powers, r: Address, now: nat, ep: nat)
    requires UpdateAll(powers, reps, changes) == Some(p') && Until(changes, now + 1) && ep > now
    requires r in powers ==> powers[r].epochModified <= now + 1
    ensures r in p' ==> p'[r].epochModified <= now + 1
    ensures Power(p', r, ep) == if ep == now + 1 && Strands(powers, reps, changes, r, now) then 0
      else Power(powers, r, ep) + Net(changes, r, ep)
  {
    if r !in powers {
      Gone(powers, reps, changes, p', r);
      NetNothing(changes, r, ep);
    } else if r in p' {
      StoredHolds(powers, reps, changes, p', r, now + 1, ep);
      StoredHolds(powers, reps, changes, p', r, now + 1, now + 2);
      if Strands(powers, reps, changes, r, now) {
        StoredIsWanted(powers, reps, changes, p', r);
      }
    } else {
      DroppedHolds(powers, reps, changes, p', r, now + 1, now + 2);
      if ep > now + 1 { DroppedHolds(powers, reps, changes, p', r, now + 1, ep); }
    }
  }
}
