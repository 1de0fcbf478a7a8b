/** Two instances of the service bringing different API keys into one store at once. Each reads the
    current key and then makes its three writes; the steps of the two interleave freely. */
module SyncRace {
  import opened Prelude
  import opened Redis
  import opened ApiKeys

  /** One instance: the key it is configured with, the digest it read, and its steps so far. */
  datatype Instance = Instance(key: string, seen: Option<string>, steps: nat)

  datatype State = State(store: Store, one: Instance, two: Instance)

  /** The next step of one of the two, at a moment. */
  datatype Move = Move(first: bool, at: int)

  function Side(s: State, first: bool): Instance {
    if first then s.one else s.two
  }

  /** The read, then the writes of the replaced key, if one was read, of the current key, and of the
      rotation time; none of them when the key read is its own. */
  function Act(codec: Codec, store: Store, i: Instance, now: int): (Store, Instance) {
    var next := i.(steps := i.steps + 1);
    if i.steps == 0 then (store, next.(seen := Get(store, CURRENT_KEY, now)))
    else if i.steps >= 4 then (store, i)
    else if i.seen == Some(HashKey(codec, i.key)) then (store, next)
    else if i.steps == 1 then
      (if i.seen.None? then store else store[OLD_KEY := Entry(i.seen.value, Some(now + DAY))], next)
    else if i.steps == 2 then (store[CURRENT_KEY := Entry(HashKey(codec, i.key), None)], next)
    else (store[ROTATION_KEY := Entry(codec.stamp(now), None)], next)
  }

  function Next(codec: Codec, s: State, m: Move): State {
    var (store, i) := Act(codec, s.store, Side(s, m.first), m.at);
    if m.first then s.(store := store, one := i) else s.(store := store, two := i)
  }

  function Run(codec: Codec, s: State, moves: seq<Move>): State {
    if |moves| == 0 then s else Next(codec, Run(codec, s, moves[..|moves| - 1]), moves[|moves| - 1])
  }

  /** An instance left to itself does what a sync does. */
  lemma AloneIsSync(codec: Codec, store: Store, key: string, now: int)
    requires key != ""
    ensures var (s1, i1) := Act(codec, store, Instance(key, None, 0), now);
            var (s2, i2) := Act(codec, s1, i1, now);
            var (s3, i3) := Act(codec, s2, i2, now);
            Sync(codec, store, key, now) == Ok(Act(codec, s3, i3, now).0)
  {
  }

  // ---------- schedules ----------

  function Done(moves: seq<Move>, first: bool): nat {
    if |moves| == 0 then 0
    else Done(moves[..|moves| - 1], first) + if moves[|moves| - 1].first == first then 1 else 0
  }

  /** In this schedule the instance reads after the other one's write of the current key. */
  predicate ReadsLate(moves: seq<Move>, first: bool) {
    |moves| > 0 &&
      var (front, last) := (moves[..|moves| - 1], moves[|moves| - 1]);
      ReadsLate(front, first) || (last.first == first && Done(front, first) == 0 && Done(front, !first) >= 3)
  }

  ghost predicate Within(moves: seq<Move>, from: int, to: int) {
    forall m :: m in moves ==> from <= m.at <= to
  }

  // ---------- what every schedule keeps ----------

  /** The keys and the times a race is about: the current key, two others, and the span of the steps. */
  datatype Race = Race(prior: string, one: string, two: string, from: int, to: int)

  function KeyOf(r: Race, first: bool): string {
    if first then r.one else r.two
  }

  ghost predicate Distinct(codec: Codec, r: Race) {
    && r.prior != "" && r.one != "" && r.two != ""
    && HashKey(codec, r.prior) != HashKey(codec, r.one) && HashKey(codec, r.prior) != HashKey(codec, r.two)
    && HashKey(codec, r.one) != HashKey(codec, r.two)
  }

  ghost predicate Starts(codec: Codec, s: State, r: Race) {
    && CURRENT_KEY in s.store && s.store[CURRENT_KEY] == Entry(HashKey(codec, r.prior), None)
    && s.one == Instance(r.one, None, 0) && s.two == Instance(r.two, None, 0)
  }

  /** What one instance has read, and how far it has come. */
  ghost predicate HasRead(codec: Codec, s: State, r: Race, moves: seq<Move>, first: bool) {
    var (i, other) := (Side(s, first), Side(s, !first));
    && i.key == KeyOf(r, first)
    && i.steps == (if Done(moves, first) <= 4 then Done(moves, first) else 4)
    && (i.steps == 0 ==> !ReadsLate(moves, first))
    && (i.steps > 0 ==>
          i.seen == Some(HashKey(codec, if ReadsLate(moves, first) then KeyOf(r, !first) else r.prior)))
    && (ReadsLate(moves, first) ==> other.steps >= 3 && !ReadsLate(moves, !first))
  }

  ghost predicate CurrentIs(codec: Codec, s: State, r: Race, moves: seq<Move>) {
    && CURRENT_KEY in s.store && s.store[CURRENT_KEY].deadline.None?
    && var current := s.store[CURRENT_KEY].value;
    && (s.one.steps < 3 && s.two.steps < 3 ==> current == HashKey(codec, r.prior))
    && (s.one.steps >= 3 && s.two.steps < 3 ==> current == HashKey(codec, r.one))
    && (s.one.steps < 3 && s.two.steps >= 3 ==> current == HashKey(codec, r.two))
    && (s.one.steps >= 3 && s.two.steps >= 3 ==>
          && (current == HashKey(codec, r.one) || current == HashKey(codec, r.two))
          && (ReadsLate(moves, true) ==> current == HashKey(codec, r.one))
          && (ReadsLate(moves, false) ==> current == HashKey(codec, r.two)))
  }

  ghost predicate OldIs(codec: Codec, s: State, r: Race, moves: seq<Move>) {
    s.one.steps >= 2 || s.two.steps >= 2 ==>
      && OLD_KEY in s.store && s.store[OLD_KEY].deadline.Some? && r.from + DAY <= s.store[OLD_KEY].deadline.value
      && s.store[OLD_KEY].value == HashKey(codec, if ReadsLate(moves, true) && s.one.steps >= 2 then r.two
                                                  else if ReadsLate(moves, false) && s.two.steps >= 2 then r.one
                                                  else r.prior)
  }

  ghost predicate RotationIs(codec: Codec, s: State, r: Race) {
    s.one.steps == 4 || s.two.steps == 4 ==>
      && ROTATION_KEY in s.store && s.store[ROTATION_KEY].deadline.None?
      && exists at :: r.from <= at <= r.to && s.store[ROTATION_KEY].value == codec.stamp(at)
  }

  ghost predicate Kept(codec: Codec, s: State, r: Race, moves: seq<Move>) {
    && HasRead(codec, s, r, moves, true) && HasRead(codec, s, r, moves, false)
    && CurrentIs(codec, s, r, moves) && OldIs(codec, s, r, moves) && RotationIs(codec, s, r)
  }

  lemma ScheduleGrows(front: seq<Move>, m: Move, first: bool)
    ensures Done(front + [m], first) == Done(front, first) + if m.first == first then 1 else 0
    ensures ReadsLate(front + [m], first) <==>
            ReadsLate(front, first) || (m.first == first && Done(front, first) == 0 && Done(front, !first) >= 3)
  {
    assert (front + [m])[..|front|] == front;
  }

  lemma NextKeeps(codec: Codec, s: State, r: Race, front: seq<Move>, m: Move)
    requires Distinct(codec, r) && Kept(codec, s, r, front) && r.from <= m.at <= r.to
    ensures Kept(codec, Next(codec, s, m), r, front + [m])
  {
    ScheduleGrows(front, m, true);
    ScheduleGrows(front, m, false);
    var s' := Next(codec, s, m);
    if Side(s, m.first).steps == 3 {
      assert s'.store[ROTATION_KEY].value == codec.stamp(m.at);
    }
  }

  lemma {:induction false} RunKeeps(codec: Codec, s: State, r: Race, moves: seq<Move>)
    requires Distinct(codec, r) && Starts(codec, s, r) && Within(moves, r.from, r.to)
    ensures Kept(codec, Run(codec, s, moves), r, moves)
  {
    if |moves| > 0 {
      var n := |moves| - 1;
      assert moves[n] in moves && forall m :: m in moves[..n] ==> m in moves;
      RunKeeps(codec, s, r, moves[..n]);
      NextKeeps(codec, Run(codec, s, moves[..n]), r, moves[..n], moves[n]);
      assert moves[..n] + [moves[n]] == moves;
    }
  }

  // ---------- which keys are accepted afterwards ----------

  /** Once both instances are done, and for the rest of a day less a second: both new keys are
      accepted exactly when one instance read after the other had written its key. Otherwise the
      key written first is refused from then on, and the old one is accepted in its place. */
  lemma BothKeysKeptExactly(codec: Codec, s: State, r: Race, moves: seq<Move>, now: int)
    requires Sound(codec) && Distinct(codec, r) && Starts(codec, s, r) && Within(moves, r.from, r.to)
    requires Done(moves, true) >= 4 && Done(moves, false) >= 4 && r.to <= now <= r.from + DAY - 1000
    ensures var store := Run(codec, s, moves).store;
            var (one, two) := (IsValid(codec, store, r.one, now), IsValid(codec, store, r.two, now));
            && (one == Ok(true) && two == Ok(true) <==> ReadsLate(moves, true) || ReadsLate(moves, false))
            && (one == Ok(true) || two == Ok(true))
            && (!ReadsLate(moves, true) && !ReadsLate(moves, false) ==>
                  (one == Ok(false) || two == Ok(false)) && IsValid(codec, store, r.prior, now) == Ok(true))
  {
    RunKeeps(codec, s, r, moves);
    var t := Run(codec, s, moves);
    var at :| r.from <= at <= r.to && t.store[ROTATION_KEY].value == codec.stamp(at);
    assert codec.parseStamp(codec.stamp(at)) == Some(WholeSecond(at));
  }
}
