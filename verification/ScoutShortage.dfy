/** When the selection falls short, decided from how many rows each contest has: whatever the
    shuffles, for some shuffles, or for none. */
module ScoutShortage {
  import opened Prelude
  import opened Finite
  import opened Quotas
  import opened Scout

  // ----- what the input offers, contest by contest

  function ContestsOf(rows: map<Problem, Row>): (contests: seq<nat>)
    ensures StrictlyIncreasing(contests)
  {
    Ascending(set p | p in rows :: rows[p].contest)
  }

  function PoolOf(rows: map<Problem, Row>, available: set<Problem>, grade: Difficulty, contest: nat): set<Row> {
    set p | p in rows && p in available && rows[p].difficulty == grade && rows[p].contest == contest :: rows[p]
  }

  /** The rows of one difficulty each contest can contribute, never more than the quota. */
  function Offer(rows: map<Problem, Row>, available: set<Problem>, grade: Difficulty): (g: seq<nat>)
    ensures |g| == |ContestsOf(rows)| && WithinQuota(g)
    ensures forall i :: 0 <= i < |g| ==> g[i] == Smaller(QUOTA, |PoolOf(rows, available, grade, ContestsOf(rows)[i])|)
  {
    var contests := ContestsOf(rows);
    seq(|contests|, i requires 0 <= i < |contests| => Smaller(QUOTA, |PoolOf(rows, available, grade, contests[i])|))
  }

  /** The places a selection takes, contest by contest. */
  ghost function CountsAt(taken: seq<Row>, contests: seq<nat>): (x: seq<nat>)
    ensures |x| == |contests| && forall i :: 0 <= i < |x| ==> x[i] == CountContest(taken, contests[i])
  {
    seq(|contests|, i requires 0 <= i < |contests| => CountContest(taken, contests[i]))
  }

  // ----- rows and their counts

  lemma GroupExists(rows: map<Problem, Row>, available: set<Problem>, grade: Difficulty) returns (group: seq<Row>)
    requires Keyed(rows)
    ensures IsGroup(rows, available, grade, group)
  {
    group := ListOf(set p | p in rows && p in available && rows[p].difficulty == grade :: rows[p]);
  }

  ghost function RowsOf(taken: seq<Row>, contest: nat): set<Row> {
    set r | r in taken && r.contest == contest
  }

  lemma RowsNext(taken: seq<Row>, row: Row, contest: nat)
    requires row !in taken
    ensures |RowsOf(taken + [row], contest)| == |RowsOf(taken, contest)| + if row.contest == contest then 1 else 0
  {
    var before := RowsOf(taken, contest);
    assert RowsOf(taken + [row], contest) == if row.contest == contest then before + {row} else before;
  }

  lemma {:induction false} CountIsSize(taken: seq<Row>, contest: nat)
    requires NoRepeats(taken)
    ensures CountContest(taken, contest) == |RowsOf(taken, contest)|
  {
    if taken == [] {
      assert RowsOf(taken, contest) == {};
    } else {
      hide RowsOf;
      var n := |taken| - 1;
      CountIsSize(taken[..n], contest);
      assert taken == taken[..n] + [taken[n]];
      RowsNext(taken[..n], taken[n], contest);
    }
  }

  /** Every order of a group has as many rows of a contest as the input offers. */
  lemma GroupCounts(rows: map<Problem, Row>, available: set<Problem>, grade: Difficulty, group: seq<Row>, contest: nat)
    requires Keyed(rows) && IsGroup(rows, available, grade, group)
    ensures CountContest(group, contest) == |PoolOf(rows, available, grade, contest)|
  {
    CountIsSize(group, contest);
    assert PoolOf(rows, available, grade, contest) == RowsOf(group, contest);
  }

  lemma {:induction false} SumUpdate(x: seq<nat>, i: nat)
    requires i < |x|
    ensures SumNats(x[i := x[i] + 1]) == SumNats(x) + 1
  {
    var n := |x| - 1;
    if i < n {
      SumUpdate(x[..n], i);
      assert x[i := x[i] + 1][..n] == x[..n][i := x[i] + 1];
    } else {
      assert x[i := x[i] + 1][..n] == x[..n];
    }
  }

  lemma {:induction false} SumOfNothing(contests: seq<nat>)
    ensures SumNats(CountsAt([], contests)) == 0
  {
    if contests != [] {
      var n := |contests| - 1;
      SumOfNothing(contests[..n]);
      assert CountsAt([], contests)[..n] == CountsAt([], contests[..n]);
    }
  }

  /** The counts of a selection add up to its length. */
  lemma {:induction false} CountsAddUp(taken: seq<Row>, contests: seq<nat>)
    requires StrictlyIncreasing(contests) && forall r :: r in taken ==> r.contest in contests
    ensures SumNats(CountsAt(taken, contests)) == |taken|
  {
    if taken == [] {
      SumOfNothing(contests);
    } else {
      var n := |taken| - 1;
      assert taken == taken[..n] + [taken[n]];
      CountsAddUp(taken[..n], contests);
      var i :| 0 <= i < |contests| && contests[i] == taken[n].contest;
      var x := CountsAt(taken[..n], contests);
      forall j | 0 <= j < |x| ensures CountsAt(taken, contests)[j] == x[i := x[i] + 1][j] {
        CountNext(taken[..n], taken[n], contests[j]);
      }
      assert CountsAt(taken, contests) == x[i := x[i] + 1];
      SumUpdate(x, i);
    }
  }

  lemma TakenContests(rows: map<Problem, Row>, available: set<Problem>, grade: Difficulty, taken: seq<Row>)
    requires forall r :: r in taken ==> InPool(rows, available, grade, r)
    ensures forall r :: r in taken ==> r.contest in ContestsOf(rows)
  {}

  lemma {:induction false} NoneElsewhere(taken: seq<Row>, contests: seq<nat>, contest: nat)
    requires (forall r :: r in taken ==> r.contest in contests) && contest !in contests
    ensures CountContest(taken, contest) == 0
  {
    if taken != [] {
      var n := |taken| - 1;
      assert taken == taken[..n] + [taken[n]];
      NoneElsewhere(taken[..n], contests, contest);
    }
  }

  /** A choice takes places within what is offered. */
  lemma ChoiceCounts(rows: map<Problem, Row>, available: set<Problem>, grade: Difficulty, earlier: seq<Row>,
                     choice: seq<Row>, count: nat)
    requires Keyed(rows) && IsChoice(rows, available, grade, earlier, choice, count)
    ensures var x := CountsAt(choice, ContestsOf(rows));
            && Within(x, Offer(rows, available, grade)) && SumNats(x) == count
            && WithinQuota(Plus(CountsAt(earlier, ContestsOf(rows)), x))
  {
    var contests := ContestsOf(rows);
    var group := GroupExists(rows, available, grade);
    TakenContests(rows, available, grade, choice);
    CountsAddUp(choice, contests);
    forall i | 0 <= i < |contests|
      ensures CountContest(earlier, contests[i]) + CountContest(choice, contests[i]) <= QUOTA
      ensures CountContest(choice, contests[i]) <= |PoolOf(rows, available, grade, contests[i])|
    {
      TakenFrom(choice, group, contests[i]);
      GroupCounts(rows, available, grade, group, contests[i]);
    }
  }

  /** The wanted places of a contest, 0 elsewhere. */
  ghost function Wanted(x: seq<nat>, contests: seq<nat>): nat -> nat
    requires |x| == |contests|
  {
    c => if c !in contests then 0 else var i :| 0 <= i < |contests| && contests[i] == c; x[i]
  }

  lemma WantedAt(x: seq<nat>, contests: seq<nat>, i: nat)
    requires |x| == |contests| && StrictlyIncreasing(contests) && i < |x|
    ensures Wanted(x, contests)(contests[i]) == x[i]
  {}

  /** How many rows of a contest are picked from any order of a group. */
  lemma PickedAt(rows: map<Problem, Row>, available: set<Problem>, grade: Difficulty, group: seq<Row>, room: nat -> nat,
                 i: nat)
    requires Keyed(rows) && IsGroup(rows, available, grade, group) && i < |ContestsOf(rows)|
    requires room(ContestsOf(rows)[i]) <= QUOTA
    ensures CountContest(Pick(group, room), ContestsOf(rows)[i])
         == Smaller(room(ContestsOf(rows)[i]), Offer(rows, available, grade)[i])
  {
    PickCounts(group, room, ContestsOf(rows)[i]);
    GroupCounts(rows, available, grade, group, ContestsOf(rows)[i]);
  }

  lemma PickedIsTaken(rows: map<Problem, Row>, available: set<Problem>, grade: Difficulty, group: seq<Row>,
                      room: nat -> nat)
    requires Keyed(rows) && IsGroup(rows, available, grade, group)
    ensures var picked := Pick(group, room);
            && NoRepeats(picked) && (forall r :: r in picked ==> InPool(rows, available, grade, r))
            && (forall r :: r in picked ==> r.contest in ContestsOf(rows))
            && SumNats(CountsAt(picked, ContestsOf(rows))) == |picked|
  {
    PickTakes(group, room);
    TakenContests(rows, available, grade, Pick(group, room));
    CountsAddUp(Pick(group, room), ContestsOf(rows));
  }

  lemma QuotaKept(earlier: seq<Row>, choice: seq<Row>, contests: seq<nat>)
    requires forall c :: CountContest(earlier, c) <= QUOTA
    requires forall r :: r in choice ==> r.contest in contests
    requires WithinQuota(Plus(CountsAt(earlier, contests), CountsAt(choice, contests)))
    ensures forall c :: CountContest(earlier, c) + CountContest(choice, c) <= QUOTA
  {
    hide CountContest;
    var z := Plus(CountsAt(earlier, contests), CountsAt(choice, contests));
    forall c ensures CountContest(earlier, c) + CountContest(choice, c) <= QUOTA {
      if c in contests {
        var i :| 0 <= i < |contests| && contests[i] == c;
        assert z[i] <= QUOTA;
      } else {
        NoneElsewhere(choice, contests, c);
      }
    }
  }

  /** Places within what is offered can be taken. */
  lemma CountsHaveChoice(rows: map<Problem, Row>, available: set<Problem>, grade: Difficulty, earlier: seq<Row>,
                         x: seq<nat>, count: nat) returns (choice: seq<Row>)
    requires Keyed(rows) && Within(x, Offer(rows, available, grade)) && SumNats(x) == count
    requires WithinQuota(Plus(CountsAt(earlier, ContestsOf(rows)), x))
    requires forall c :: CountContest(earlier, c) <= QUOTA
    ensures IsChoice(rows, available, grade, earlier, choice, count)
    ensures CountsAt(choice, ContestsOf(rows)) == x
  {
    hide Pick, Wanted, CountContest, InPool, Keyed, ContestsOf, IsGroup;
    var contests := ContestsOf(rows);
    var group := GroupExists(rows, available, grade);
    choice := Pick(group, Wanted(x, contests));
    PickedIsTaken(rows, available, grade, group, Wanted(x, contests));
    forall i | 0 <= i < |contests| ensures CountContest(choice, contests[i]) == x[i] {
      WantedAt(x, contests, i);
      PickedAt(rows, available, grade, group, Wanted(x, contests), i);
    }
    assert CountsAt(choice, contests) == x;
    QuotaKept(earlier, choice, contests);
  }

  // ----- a shortage, in numbers

  /** No choice of `count` rows is left exactly when the room that is left is smaller. */
  lemma ExhaustedIsRoom(rows: map<Problem, Row>, available: set<Problem>, grade: Difficulty, earlier: seq<Row>,
                        count: nat)
    requires Keyed(rows) && forall c :: CountContest(earlier, c) <= QUOTA
    ensures Exhausted(rows, available, grade, earlier, count) <==>
      Room(CountsAt(earlier, ContestsOf(rows)), Offer(rows, available, grade)) < count
  {
    hide Pick, CountContest, Exhausted, IsChoice, InPool, Keyed, ContestsOf, IsGroup, Offer;
    var contests, offer := ContestsOf(rows), Offer(rows, available, grade);
    var group := GroupExists(rows, available, grade);
    var picked := Pick(group, RoomLeft(earlier));
    PickedIsTaken(rows, available, grade, group, RoomLeft(earlier));
    forall i | 0 <= i < |contests|
      ensures CountContest(picked, contests[i]) == Smaller(Left(CountContest(earlier, contests[i])), offer[i])
    {
      PickedAt(rows, available, grade, group, RoomLeft(earlier), i);
    }
    RoomIsSum(CountsAt(earlier, contests), offer, CountsAt(picked, contests));
    GreedyChooses(rows, available, grade, group, earlier, count);
    if |picked| >= count {
      ChoiceRefutes(rows, available, grade, earlier, Greedy(group, earlier, count), count);
    }
  }

  lemma ChoiceRefutes(rows: map<Problem, Row>, available: set<Problem>, grade: Difficulty, earlier: seq<Row>,
                      choice: seq<Row>, count: nat)
    requires IsChoice(rows, available, grade, earlier, choice, count)
    ensures !Exhausted(rows, available, grade, earlier, count)
  {}

  lemma {:induction false} RoomIsSum(used: seq<nat>, g: seq<nat>, taken: seq<nat>)
    requires |used| == |g| == |taken|
    requires forall i :: 0 <= i < |taken| ==> taken[i] == Smaller(Left(used[i]), g[i])
    ensures Room(used, g) == SumNats(taken)
  {
    if used != [] {
      var n := |used| - 1;
      RoomIsSum(used[..n], g[..n], taken[..n]);
    }
  }

  /** A legitimate choice put first is what the loop makes of an order of the group. */
  lemma ChoiceHasOrder(rows: map<Problem, Row>, available: set<Problem>, grade: Difficulty, earlier: seq<Row>,
                       choice: seq<Row>, count: nat) returns (order: seq<Row>)
    requires Keyed(rows) && IsChoice(rows, available, grade, earlier, choice, count)
    ensures IsGroup(rows, available, grade, order) && Greedy(order, earlier, count) == choice
  {
    var group := GroupExists(rows, available, grade);
    var rest := ListOf(set r | r in group && r !in choice);
    order := choice + rest;
    ChoiceIsGreedy(choice, rest, earlier);
    forall i, j | 0 <= i < j < |order| ensures order[i] != order[j] {
      assert i < |choice| ==> order[i] in choice;
      assert j >= |choice| ==> order[j] in rest;
    }
  }

  // ----- which outcomes the shuffles can have

  ghost predicate CanEnd(rows: map<Problem, Row>, available: set<Problem>, error: ScoutError) {
    exists o :: AreShuffles(rows, available, o) && Outcome(o) == Err(error)
  }

  ghost predicate CanSucceed(rows: map<Problem, Row>, available: set<Problem>) {
    exists o :: AreShuffles(rows, available, o) && Outcome(o).Ok?
  }

  /** Orders for given choices; a grade without one may come in any order. */
  lemma OrdersFor(rows: map<Problem, Row>, available: set<Problem>, hard: seq<Row>, medium: Option<seq<Row>>,
                  easy: Option<seq<Row>>) returns (o: Orders)
    requires Keyed(rows) && IsChoice(rows, available, Hard, [], hard, 32)
    requires medium.Some? ==> IsChoice(rows, available, Medium, hard, medium.value, 24)
    requires easy.Some? ==> medium.Some? && IsChoice(rows, available, Easy, hard + medium.value, easy.value, 8)
    ensures AreShuffles(rows, available, o) && Greedy(o.hard, [], 32) == hard
    ensures medium.Some? ==> Greedy(o.medium, hard, 24) == medium.value
    ensures easy.Some? ==> Greedy(o.easy, hard + medium.value, 8) == easy.value
  {
    hide Greedy, IsChoice, IsGroup;
    var first := ChoiceHasOrder(rows, available, Hard, [], hard, 32);
    var second, third;
    if medium.Some? {
      second := ChoiceHasOrder(rows, available, Medium, hard, medium.value, 24);
    } else {
      second := GroupExists(rows, available, Medium);
    }
    if easy.Some? {
      third := ChoiceHasOrder(rows, available, Easy, hard + medium.value, easy.value, 8);
    } else {
      third := GroupExists(rows, available, Easy);
    }
    o := Orders(first, second, third);
  }

  lemma QuotaAfter(rows: map<Problem, Row>, available: set<Problem>, grade: Difficulty, earlier: seq<Row>,
                   choice: seq<Row>, count: nat)
    requires IsChoice(rows, available, grade, earlier, choice, count)
    ensures forall c :: CountContest(earlier + choice, c) <= QUOTA
    ensures CountsAt(earlier + choice, ContestsOf(rows))
         == Plus(CountsAt(earlier, ContestsOf(rows)), CountsAt(choice, ContestsOf(rows)))
  {
    var contests := ContestsOf(rows);
    forall c
      ensures CountContest(earlier + choice, c) == CountContest(earlier, c) + CountContest(choice, c)
      ensures CountContest(earlier + choice, c) <= QUOTA
    {
      CountConcat(earlier, choice, c);
    }
    assert CountsAt(earlier + choice, contests) == Plus(CountsAt(earlier, contests), CountsAt(choice, contests));
  }

  // ----- hard

  lemma NothingTaken(rows: map<Problem, Row>, g: seq<nat>)
    requires |g| == |ContestsOf(rows)| && WithinQuota(g)
    ensures Room(CountsAt([], ContestsOf(rows)), g) == SumNats(g)
    ensures forall c :: CountContest([], c) == 0
  {
    RoomIsSum(CountsAt([], ContestsOf(rows)), g, g);
  }

  lemma ExhaustedEnds(rows: map<Problem, Row>, available: set<Problem>, grade: Difficulty, earlier: seq<Row>,
                      order: seq<Row>, count: nat)
    requires IsGroup(rows, available, grade, order) && Exhausted(rows, available, grade, earlier, count)
    requires forall c :: CountContest(earlier, c) <= QUOTA
    ensures |Greedy(order, earlier, count)| < count
  {
    hide Exhausted, IsChoice, Greedy, CountContest;
    GreedyChooses(rows, available, grade, order, earlier, count);
    if |Greedy(order, earlier, count)| >= count {
      ChoiceRefutes(rows, available, grade, earlier, Greedy(order, earlier, count), count);
    }
  }

  /** Hard falls short for every shuffle or for none: when fewer than 32 places are offered. */
  lemma HardShortage(rows: map<Problem, Row>, available: set<Problem>)
    requires Keyed(rows)
    ensures Exhausted(rows, available, Hard, [], 32) <==> SumNats(Offer(rows, available, Hard)) < 32
    ensures CanEnd(rows, available, Insufficient(Hard)) <==> SumNats(Offer(rows, available, Hard)) < 32
  {
    NothingTaken(rows, Offer(rows, available, Hard));
    hide Exhausted, IsGroup, Greedy, CountContest;
    ExhaustedIsRoom(rows, available, Hard, [], 32);
    if o :| AreShuffles(rows, available, o) && Outcome(o) == Err(Insufficient(Hard)) {
      OutcomeMeans(rows, available, o);
    }
    if Exhausted(rows, available, Hard, [], 32) {
      var first := GroupExists(rows, available, Hard);
      var second := GroupExists(rows, available, Medium);
      var third := GroupExists(rows, available, Easy);
      ExhaustedEnds(rows, available, Hard, [], first, 32);
      assert AreShuffles(rows, available, Orders(first, second, third));
    }
  }

  // ----- medium

  /** The hard choices are, in numbers, the ways to place 32 rows within what is offered. */
  lemma HardPlaces(rows: map<Problem, Row>, available: set<Problem>, hard: seq<Row>)
    requires Keyed(rows) && IsChoice(rows, available, Hard, [], hard, 32)
    ensures var x := CountsAt(hard, ContestsOf(rows));
            Within(x, Offer(rows, available, Hard)) && SumNats(x) == 32
    ensures forall c :: CountContest(hard, c) <= QUOTA
  {
    ChoiceCounts(rows, available, Hard, [], hard, 32);
    QuotaAfter(rows, available, Hard, [], hard, 32);
    assert [] + hard == hard;
  }

  lemma PlacesHard(rows: map<Problem, Row>, available: set<Problem>, x: seq<nat>) returns (hard: seq<Row>)
    requires Keyed(rows) && Within(x, Offer(rows, available, Hard)) && SumNats(x) == 32
    ensures IsChoice(rows, available, Hard, [], hard, 32) && CountsAt(hard, ContestsOf(rows)) == x
    ensures forall c :: CountContest(hard, c) <= QUOTA
  {
    NothingTaken(rows, Offer(rows, available, Hard));
    forall i | 0 <= i < |x| ensures Plus(CountsAt([], ContestsOf(rows)), x)[i] <= QUOTA {}
    hard := CountsHaveChoice(rows, available, Hard, [], x, 32);
    HardPlaces(rows, available, hard);
  }

  /** Medium falls short for some shuffles exactly when 32 hard places are offered and the worst of
      them leaves fewer than 24 of the medium ones. */
  lemma MediumShortage(rows: map<Problem, Row>, available: set<Problem>)
    requires Keyed(rows)
    ensures CanEnd(rows, available, Insufficient(Medium)) <==>
      var h, m := Offer(rows, available, Hard), Offer(rows, available, Medium);
      SumNats(h) >= 32 && SumNats(m) < WorstLoss(h, m, 32) + 24
  {
    hide Exhausted, IsGroup, Greedy, CountContest, IsChoice, Offer, WorstLoss, Room, ContestsOf;
    var h, m := Offer(rows, available, Hard), Offer(rows, available, Medium);
    SomeChoiceStarves(h, m, 32, 24);
    if o :| AreShuffles(rows, available, o) && Outcome(o) == Err(Insufficient(Medium)) {
      OutcomeMeans(rows, available, o);
      var hard := Greedy(o.hard, [], 32);
      HardPlaces(rows, available, hard);
      ExhaustedIsRoom(rows, available, Medium, hard, 24);
    }
    if x :| Within(x, h) && SumNats(x) == 32 && Room(x, m) < 24 {
      var hard := PlacesHard(rows, available, x);
      ExhaustedIsRoom(rows, available, Medium, hard, 24);
      var o := OrdersFor(rows, available, hard, None, None);
      ExhaustedEnds(rows, available, Medium, hard, o.medium, 24);
      ChoiceLength(rows, available, Hard, [], hard, 32);
      assert Outcome(o) == Err(Insufficient(Medium));
    }
  }

  lemma ChoiceLength(rows: map<Problem, Row>, available: set<Problem>, grade: Difficulty, earlier: seq<Row>,
                     choice: seq<Row>, count: nat)
    requires IsChoice(rows, available, grade, earlier, choice, count)
    ensures |choice| == count
  {}

  // ----- easy

  /** The joint hard and medium choices are, in numbers, joint ways to place 32 and 24 rows. */
  lemma JointPlaces(rows: map<Problem, Row>, available: set<Problem>, hard: seq<Row>, medium: seq<Row>)
    requires Keyed(rows)
    requires IsChoice(rows, available, Hard, [], hard, 32) && IsChoice(rows, available, Medium, hard, medium, 24)
    ensures var x, y := CountsAt(hard, ContestsOf(rows)), CountsAt(medium, ContestsOf(rows));
            && Together(x, y, Offer(rows, available, Hard), Offer(rows, available, Medium))
            && SumNats(x) == 32 && SumNats(y) == 24
            && CountsAt(hard + medium, ContestsOf(rows)) == Plus(x, y)
    ensures forall c :: CountContest(hard + medium, c) <= QUOTA
  {
    hide Offer, IsChoice, CountContest, ContestsOf;
    HardPlaces(rows, available, hard);
    ChoiceCounts(rows, available, Medium, hard, medium, 24);
    QuotaAfter(rows, available, Medium, hard, medium, 24);
  }

  lemma PlacesJoint(rows: map<Problem, Row>, available: set<Problem>, x: seq<nat>, y: seq<nat>)
      returns (hard: seq<Row>, medium: seq<Row>)
    requires Keyed(rows) && Together(x, y, Offer(rows, available, Hard), Offer(rows, available, Medium))
    requires SumNats(x) == 32 && SumNats(y) == 24
    ensures IsChoice(rows, available, Hard, [], hard, 32) && IsChoice(rows, available, Medium, hard, medium, 24)
    ensures CountsAt(hard + medium, ContestsOf(rows)) == Plus(x, y)
    ensures forall c :: CountContest(hard + medium, c) <= QUOTA
  {
    hide Offer, IsChoice, CountContest, ContestsOf;
    hard := PlacesHard(rows, available, x);
    medium := CountsHaveChoice(rows, available, Medium, hard, y, 24);
    JointPlaces(rows, available, hard, medium);
  }

  /** Whether some hard and medium choices leave room for exactly `room` easy rows. */
  predicate LeavesEasy(rows: map<Problem, Row>, available: set<Problem>, room: nat) {
    CanLeave(Offer(rows, available, Hard), Offer(rows, available, Medium), Offer(rows, available, Easy), 32, 24, room)
  }

  /** Easy falls short for some shuffles exactly when some joint placing of 32 hard and 24 medium
      rows leaves room for fewer than 8. */
  lemma EasyShortage(rows: map<Problem, Row>, available: set<Problem>)
    requires Keyed(rows)
    ensures CanEnd(rows, available, Insufficient(Easy)) <==>
      exists room :: room < 8 && LeavesEasy(rows, available, room)
  {
    hide Exhausted, IsGroup, Greedy, CountContest, IsChoice, Offer, CanLeave, Room, ContestsOf, Together;
    var h, m, e := Offer(rows, available, Hard), Offer(rows, available, Medium), Offer(rows, available, Easy);
    if o :| AreShuffles(rows, available, o) && Outcome(o) == Err(Insufficient(Easy)) {
      OutcomeMeans(rows, available, o);
      var hard := Greedy(o.hard, [], 32);
      var medium := Greedy(o.medium, hard, 24);
      JointPlaces(rows, available, hard, medium);
      ExhaustedIsRoom(rows, available, Easy, hard + medium, 8);
      TogetherLeaves(h, m, e, CountsAt(hard, ContestsOf(rows)), CountsAt(medium, ContestsOf(rows)));
      assert LeavesEasy(rows, available, Room(CountsAt(hard + medium, ContestsOf(rows)), e));
    }
    if room :| room < 8 && LeavesEasy(rows, available, room) {
      var x, y := LeavesTogether(h, m, e, 32, 24, room);
      var hard, medium := PlacesJoint(rows, available, x, y);
      ExhaustedIsRoom(rows, available, Easy, hard + medium, 8);
      var o := OrdersFor(rows, available, hard, Some(medium), None);
      ExhaustedEnds(rows, available, Easy, hard + medium, o.easy, 8);
      ChoiceLength(rows, available, Hard, [], hard, 32);
      ChoiceLength(rows, available, Medium, hard, medium, 24);
      assert Outcome(o) == Err(Insufficient(Easy));
    }
  }

  /** Some shuffles yield a scout exactly when some joint placing leaves room for 8 easy rows. */
  lemma SomeShuffleSucceeds(rows: map<Problem, Row>, available: set<Problem>)
    requires Keyed(rows)
    ensures CanSucceed(rows, available) <==> exists room :: room >= 8 && LeavesEasy(rows, available, room)
  {
    hide Exhausted, IsGroup, Greedy, CountContest, IsChoice, Offer, CanLeave, Room, ContestsOf, Together;
    var h, m, e := Offer(rows, available, Hard), Offer(rows, available, Medium), Offer(rows, available, Easy);
    if o :| AreShuffles(rows, available, o) && Outcome(o).Ok? {
      OutcomeMeans(rows, available, o);
      var hard := Greedy(o.hard, [], 32);
      var medium := Greedy(o.medium, hard, 24);
      JointPlaces(rows, available, hard, medium);
      ChoiceRefutes(rows, available, Easy, hard + medium, Greedy(o.easy, hard + medium, 8), 8);
      ExhaustedIsRoom(rows, available, Easy, hard + medium, 8);
      TogetherLeaves(h, m, e, CountsAt(hard, ContestsOf(rows)), CountsAt(medium, ContestsOf(rows)));
      assert LeavesEasy(rows, available, Room(CountsAt(hard + medium, ContestsOf(rows)), e));
    }
    if room :| room >= 8 && LeavesEasy(rows, available, room) {
      var x, y := LeavesTogether(h, m, e, 32, 24, room);
      var hard, medium := PlacesJoint(rows, available, x, y);
      ExhaustedIsRoom(rows, available, Easy, hard + medium, 8);
      var easy := SomeChoice(rows, available, Easy, hard + medium, 8);
      var o := OrdersFor(rows, available, hard, Some(medium), Some(easy));
      ChoiceLength(rows, available, Hard, [], hard, 32);
      ChoiceLength(rows, available, Medium, hard, medium, 24);
      ChoiceLength(rows, available, Easy, hard + medium, easy, 8);
      assert Outcome(o).Ok?;
    }
  }

  lemma SomeChoice(rows: map<Problem, Row>, available: set<Problem>, grade: Difficulty, earlier: seq<Row>, count: nat)
      returns (choice: seq<Row>)
    requires !Exhausted(rows, available, grade, earlier, count)
    ensures IsChoice(rows, available, grade, earlier, choice, count)
  {
    choice :| IsChoice(rows, available, grade, earlier, choice, count);
  }

  /** Without deciding the split: easy never falls short when even the worst 56 places of either
      kind leave 8 easy rows. */
  lemma EasyIsSafe(rows: map<Problem, Row>, available: set<Problem>)
    requires Keyed(rows)
    requires var h, m, e := Offer(rows, available, Hard), Offer(rows, available, Medium), Offer(rows, available, Easy);
             SumNats(e) >= WorstLoss(Either(h, m), e, 56) + 8
    ensures !CanEnd(rows, available, Insufficient(Easy))
  {
    hide CanLeave, Offer, CanEnd, WorstLoss, Either, Room;
    var h, m, e := Offer(rows, available, Hard), Offer(rows, available, Medium), Offer(rows, available, Easy);
    EasyShortage(rows, available);
    forall room | LeavesEasy(rows, available, room) ensures room >= 8 {
      var x, y := LeavesTogether(h, m, e, 32, 24, room);
      JointLossBounded(h, m, e, x, y);
    }
  }

  // ----- all shuffles, or some

  /** What a caller can check of the input: the selection succeeds whatever the shuffles. */
  predicate AlwaysEnough(rows: map<Problem, Row>, available: set<Problem>) {
    var h, m := Offer(rows, available, Hard), Offer(rows, available, Medium);
    && SumNats(h) >= 32
    && SumNats(m) >= WorstLoss(h, m, 32) + 24
    && forall room :: 0 <= room < 8 ==> !LeavesEasy(rows, available, room)
  }

  /** Every shuffle yields a scout exactly when there is always enough. */
  lemma EveryShuffleSucceeds(rows: map<Problem, Row>, available: set<Problem>)
    requires Keyed(rows)
    ensures (forall o :: AreShuffles(rows, available, o) ==> Outcome(o).Ok?) <==> AlwaysEnough(rows, available)
  {
    hide LeavesEasy, Offer, WorstLoss, AreShuffles;
    HardShortage(rows, available);
    MediumShortage(rows, available);
    EasyShortage(rows, available);
    forall o | AreShuffles(rows, available, o) && Outcome(o).Err?
      ensures CanEnd(rows, available, Insufficient(Hard)) || CanEnd(rows, available, Insufficient(Medium))
        || CanEnd(rows, available, Insufficient(Easy))
    {
      match Outcome(o).error
      case Insufficient(Hard) => assert CanEnd(rows, available, Insufficient(Hard));
      case Insufficient(Medium) => assert CanEnd(rows, available, Insufficient(Medium));
      case Insufficient(Easy) => assert CanEnd(rows, available, Insufficient(Easy));
    }
  }

  /** The shuffles decide exactly when there is not always enough, and yet some joint placing leaves
      room for 8 easy rows. */
  lemma ShufflesDecide(rows: map<Problem, Row>, available: set<Problem>)
    requires Keyed(rows)
    ensures (exists o, p :: AreShuffles(rows, available, o) && AreShuffles(rows, available, p)
               && Outcome(o).Ok? && Outcome(p).Err?)
        <==> !AlwaysEnough(rows, available) && exists room :: room >= 8 && LeavesEasy(rows, available, room)
  {
    hide LeavesEasy, AlwaysEnough, AreShuffles, Outcome;
    EveryShuffleSucceeds(rows, available);
    SomeShuffleSucceeds(rows, available);
  }
}
