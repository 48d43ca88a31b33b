/** `select_scout`: a greedy stratified selection under a per-contest quota. */
module Scout {
  import opened Prelude
  import opened Finite
  import opened Quotas

  type Problem = nat

  datatype Difficulty = Easy | Medium | Hard

  /** A benchmark row with the contest its problem id names. */
  datatype Row = Row(problem: Problem, difficulty: Difficulty, contest: nat)

  datatype ScoutError = Insufficient(grade: Difficulty)

  datatype Selection = Selection(selected: seq<Row>, excluded: seq<Problem>)

  /** The statement reader keys every row by its own problem id. */
  ghost predicate Keyed(rows: map<Problem, Row>) {
    forall p :: p in rows ==> rows[p].problem == p
  }

  ghost predicate InPool(rows: map<Problem, Row>, available: set<Problem>, grade: Difficulty, r: Row) {
    r.problem in rows && r.problem in available && rows[r.problem] == r && r.difficulty == grade
  }

  ghost function CountContest(rows: seq<Row>, contest: nat): nat {
    if rows == [] then 0
    else CountContest(rows[..|rows| - 1], contest) + (if rows[|rows| - 1].contest == contest then 1 else 0)
  }

  /** Different rows of one pool that fit the quota left by the earlier ones. */
  ghost predicate Fits(rows: map<Problem, Row>, available: set<Problem>, grade: Difficulty, earlier: seq<Row>,
                       choice: seq<Row>)
  {
    && NoRepeats(choice)
    && (forall r :: r in choice ==> InPool(rows, available, grade, r))
    && forall c :: CountContest(earlier, c) + CountContest(choice, c) <= QUOTA
  }

  ghost predicate IsChoice(rows: map<Problem, Row>, available: set<Problem>, grade: Difficulty, earlier: seq<Row>,
                           choice: seq<Row>, count: nat)
  {
    Fits(rows, available, grade, earlier, choice) && |choice| == count
  }

  /** No `count` rows of the grade fit the quota left by the earlier ones. */
  ghost predicate Exhausted(rows: map<Problem, Row>, available: set<Problem>, grade: Difficulty, earlier: seq<Row>,
                            count: nat)
  {
    forall choice :: !IsChoice(rows, available, grade, earlier, choice, count)
  }

  // ----- counting by contest

  function OfContest(contest: nat): Row -> nat {
    (r: Row) => if r.contest == contest then 1 else 0
  }

  lemma {:induction false} CountIsSum(rows: seq<Row>, contest: nat)
    ensures CountContest(rows, contest) == SumBy(rows, OfContest(contest))
  {
    if rows != [] {
      CountIsSum(rows[..|rows| - 1], contest);
    }
  }

  lemma CountConcat(a: seq<Row>, b: seq<Row>, contest: nat)
    ensures CountContest(a + b, contest) == CountContest(a, contest) + CountContest(b, contest)
  {
    CountIsSum(a, contest);
    CountIsSum(b, contest);
    CountIsSum(a + b, contest);
    SumByConcat(a, b, OfContest(contest));
  }

  lemma CountWithout(rows: seq<Row>, j: nat, contest: nat)
    requires j < |rows|
    ensures CountContest(rows, contest)
         == CountContest(rows[..j] + rows[j + 1..], contest) + (if rows[j].contest == contest then 1 else 0)
  {
    CountIsSum(rows, contest);
    CountIsSum(rows[..j] + rows[j + 1..], contest);
    SumByWithout(rows, j, OfContest(contest));
  }

  lemma {:induction false} CountFinds(rows: seq<Row>, contest: nat) returns (j: nat)
    requires CountContest(rows, contest) > 0
    ensures j < |rows| && rows[j].contest == contest
  {
    var n := |rows| - 1;
    if rows[n].contest == contest { return n; }
    j := CountFinds(rows[..n], contest);
  }

  /** A selection with no more rows of any contest has no more rows. */
  lemma {:induction false} DominatedIsShorter(a: seq<Row>, b: seq<Row>)
    requires forall c :: CountContest(a, c) <= CountContest(b, c)
    ensures |a| <= |b|
    decreases |a|
  {
    if a != [] {
      var n := |a| - 1;
      var contest := a[n].contest;
      assert CountContest(a, contest) <= CountContest(b, contest);
      var j := CountFinds(b, contest);
      var rest := b[..j] + b[j + 1..];
      forall c ensures CountContest(a[..n], c) <= CountContest(rest, c) {
        CountWithout(b, j, c);
        assert CountContest(a, c) <= CountContest(b, c);
      }
      DominatedIsShorter(a[..n], rest);
    }
  }

  /** Different rows taken from `b` have at most as many of each contest. */
  lemma {:induction false} TakenFrom(a: seq<Row>, b: seq<Row>, contest: nat)
    requires NoRepeats(a) && forall r :: r in a ==> r in b
    ensures CountContest(a, contest) <= CountContest(b, contest)
    decreases |a|
  {
    if a != [] {
      var n := |a| - 1;
      assert a[n] in b;
      var j :| 0 <= j < |b| && b[j] == a[n];
      var rest := b[..j] + b[j + 1..];
      forall r | r in a[..n] ensures r in rest {
        var i :| 0 <= i < n && a[i] == r;
        assert a[i] != a[n] && a[i] in b;
        var k :| 0 <= k < |b| && b[k] == r;
        assert r == rest[if k < j then k else k - 1];
      }
      TakenFrom(a[..n], rest, contest);
      CountWithout(b, j, contest);
    }
  }

  lemma CountPermuted(a: seq<Row>, b: seq<Row>, contest: nat)
    requires multiset(a) == multiset(b)
    ensures CountContest(a, contest) == CountContest(b, contest)
  {
    CountIsSum(a, contest);
    CountIsSum(b, contest);
    SumByPermuted(a, b, OfContest(contest));
  }

  // ----- the greedy choice

  /** Every contest is either full or has all its candidates chosen. */
  ghost predicate Maximal(candidates: seq<Row>, earlier: seq<Row>, chosen: seq<Row>) {
    forall c ::
      || CountContest(earlier, c) + CountContest(chosen, c) >= QUOTA
      || CountContest(chosen, c) == CountContest(candidates, c)
  }

  /** No other choice of candidates within the quota is longer than the greedy one. */
  lemma GreedyIsOptimal(candidates: seq<Row>, earlier: seq<Row>, chosen: seq<Row>, other: seq<Row>)
    requires Maximal(candidates, earlier, chosen)
    requires NoRepeats(other) && (forall r :: r in other ==> r in candidates)
    requires forall c :: CountContest(earlier, c) + CountContest(other, c) <= QUOTA
    ensures |other| <= |chosen|
  {
    forall c ensures CountContest(other, c) <= CountContest(chosen, c) {
      TakenFrom(other, candidates, c);
      assert CountContest(earlier, c) + CountContest(other, c) <= QUOTA;
    }
    DominatedIsShorter(other, chosen);
  }

  /** The greedy choice in a given order: each row that its contest still has room for. */
  ghost function Pick(candidates: seq<Row>, room: nat -> nat): seq<Row> {
    if candidates == [] then []
    else
      var before, r := Pick(candidates[..|candidates| - 1], room), candidates[|candidates| - 1];
      if CountContest(before, r.contest) < room(r.contest) then before + [r] else before
  }

  /** What the quota leaves of each contest. */
  ghost function RoomLeft(earlier: seq<Row>): nat -> nat {
    c => Left(CountContest(earlier, c))
  }

  ghost function FirstOf<T>(s: seq<T>, n: nat): seq<T> { if |s| <= n then s else s[..n] }

  /** What the loop chooses from candidates in this order. */
  ghost function Greedy(candidates: seq<Row>, earlier: seq<Row>, count: nat): seq<Row> {
    FirstOf(Pick(candidates, RoomLeft(earlier)), count)
  }

  lemma PickNext(candidates: seq<Row>, r: Row, room: nat -> nat)
    ensures var before := Pick(candidates, room);
            Pick(candidates + [r], room)
              == if CountContest(before, r.contest) < room(r.contest) then before + [r] else before
  {
    assert (candidates + [r])[..|candidates|] == candidates;
  }

  /** Of each contest as many rows are picked as there are and as there is room for. */
  lemma {:induction false} PickCounts(candidates: seq<Row>, room: nat -> nat, contest: nat)
    ensures CountContest(Pick(candidates, room), contest)
         == Smaller(room(contest), CountContest(candidates, contest))
  {
    if candidates != [] {
      var n := |candidates| - 1;
      PickCounts(candidates[..n], room, contest);
      CountNext(Pick(candidates[..n], room), candidates[n], contest);
    }
  }

  lemma {:induction false} PickTakes(candidates: seq<Row>, room: nat -> nat)
    requires NoRepeats(candidates)
    ensures NoRepeats(Pick(candidates, room)) && forall r :: r in Pick(candidates, room) ==> r in candidates
  {
    if candidates != [] {
      var n := |candidates| - 1;
      PickTakes(candidates[..n], room);
      NewRow(candidates, Pick(candidates[..n], room), n);
      assert candidates == candidates[..n] + [candidates[n]];
    }
  }

  lemma {:induction false} PickExtends(candidates: seq<Row>, more: seq<Row>, room: nat -> nat)
    ensures Pick(candidates, room) <= Pick(candidates + more, room)
  {
    if more == [] {
      assert candidates + more == candidates;
    } else {
      var n := |more| - 1;
      PickExtends(candidates, more[..n], room);
      assert candidates + more == candidates + more[..n] + [more[n]];
      PickNext(candidates + more[..n], more[n], room);
    }
  }

  lemma PrefixCounts(a: seq<Row>, b: seq<Row>, contest: nat)
    requires a <= b
    ensures CountContest(a, contest) <= CountContest(b, contest)
  {
    assert b == a + b[|a|..];
    CountConcat(a, b[|a|..], contest);
  }

  /** Rows that all have room are all picked. */
  lemma {:induction false} PickAll(choice: seq<Row>, room: nat -> nat)
    requires forall c :: CountContest(choice, c) <= room(c)
    ensures Pick(choice, room) == choice
  {
    if choice != [] {
      var n := |choice| - 1;
      forall c ensures CountContest(choice[..n], c) <= room(c) {
        PrefixCounts(choice[..n], choice, c);
        assert CountContest(choice, c) <= room(c);
      }
      PickAll(choice[..n], room);
      assert CountContest(choice, choice[n].contest) <= room(choice[n].contest);
      assert choice == choice[..n] + [choice[n]];
    }
  }

  /** Every legitimate choice is what the loop makes of some order: the chosen rows first. */
  lemma ChoiceIsGreedy(choice: seq<Row>, rest: seq<Row>, earlier: seq<Row>)
    requires forall c :: CountContest(earlier, c) + CountContest(choice, c) <= QUOTA
    ensures Greedy(choice + rest, earlier, |choice|) == choice
  {
    forall c ensures CountContest(choice, c) <= RoomLeft(earlier)(c) {
      assert CountContest(earlier, c) + CountContest(choice, c) <= QUOTA;
    }
    PickAll(choice, RoomLeft(earlier));
    PickExtends(choice, rest, RoomLeft(earlier));
  }

  /** The greedy choice keeps the quota, and is maximal unless it was cut off at `count`. */
  lemma GreedyFits(candidates: seq<Row>, earlier: seq<Row>, count: nat)
    requires NoRepeats(candidates) && forall c :: CountContest(earlier, c) <= QUOTA
    ensures var chosen := Greedy(candidates, earlier, count);
            && NoRepeats(chosen) && (forall r :: r in chosen ==> r in candidates) && |chosen| <= count
            && (forall c :: CountContest(earlier, c) + CountContest(chosen, c) <= QUOTA)
            && (|chosen| < count ==> Maximal(candidates, earlier, chosen))
  {
    var room := RoomLeft(earlier);
    var picked, chosen := Pick(candidates, room), Greedy(candidates, earlier, count);
    PickTakes(candidates, room);
    forall c
      ensures CountContest(earlier, c) + CountContest(chosen, c) <= QUOTA
      ensures CountContest(earlier, c) + CountContest(picked, c) >= QUOTA
        || CountContest(picked, c) == CountContest(candidates, c)
    {
      PickCounts(candidates, room, c);
      PrefixCounts(chosen, picked, c);
    }
  }

  /** When the row at this position is reached, its contest has room: too few rows of it came before,
      earlier choices included. */
  ghost predicate HasRoomAt(order: seq<Row>, earlier: seq<Row>, i: nat)
    requires i < |order|
  {
    CountContest(order[..i], order[i].contest) + CountContest(earlier, order[i].contest) < QUOTA
  }

  ghost function RoomBefore(order: seq<Row>, earlier: seq<Row>, i: nat): set<nat>
    requires i <= |order|
  {
    set j: nat | j < i && HasRoomAt(order, earlier, j)
  }

  lemma RoomStep(order: seq<Row>, earlier: seq<Row>, i: nat)
    requires i < |order|
    ensures |RoomBefore(order, earlier, i + 1)|
         == |RoomBefore(order, earlier, i)| + if HasRoomAt(order, earlier, i) then 1 else 0
  {
    hide HasRoomAt;
    var before := RoomBefore(order, earlier, i);
    assert RoomBefore(order, earlier, i + 1) == if HasRoomAt(order, earlier, i) then before + {i} else before;
  }

  lemma NothingBefore(order: seq<Row>, earlier: seq<Row>)
    ensures Pick(order[..0], RoomLeft(earlier)) == [] && RoomBefore(order, earlier, 0) == {}
  {}

  lemma {:induction false} PickedBefore(order: seq<Row>, earlier: seq<Row>, i: nat)
    requires i <= |order| && forall c :: CountContest(earlier, c) <= QUOTA
    ensures |Pick(order[..i], RoomLeft(earlier))| == |RoomBefore(order, earlier, i)|
  {
    hide *;
    if i == 0 {
      NothingBefore(order, earlier);
    } else {
      PickedBefore(order, earlier, i - 1);
      PickStep(order, earlier, i - 1);
      RoomStep(order, earlier, i - 1);
    }
  }

  lemma PickStep(order: seq<Row>, earlier: seq<Row>, i: nat)
    requires i < |order| && forall c :: CountContest(earlier, c) <= QUOTA
    ensures var room, before := RoomLeft(earlier), Pick(order[..i], RoomLeft(earlier));
            Pick(order[..i + 1], room) == if HasRoomAt(order, earlier, i) then before + [order[i]] else before
  {
    var room, r := RoomLeft(earlier), order[i];
    assert order[..i + 1] == order[..i] + [r];
    PickNext(order[..i], r, room);
    PickCounts(order[..i], room, r.contest);
  }

  /** Cut off at `count`, a listing keeps exactly the entries whose place comes before. */
  lemma CutKeeps<T>(s: seq<T>, count: nat, k: nat)
    requires NoRepeats(s) && k < |s|
    ensures s[k] in FirstOf(s, count) <==> k < count
    ensures k < count ==> k < |FirstOf(s, count)| && FirstOf(s, count)[k] == s[k]
  {
    if j: nat :| j < |FirstOf(s, count)| && FirstOf(s, count)[j] == s[k] {
      assert j == k;
    }
  }

  lemma PickedAtTurn(order: seq<Row>, earlier: seq<Row>, i: nat)
    requires NoRepeats(order) && i < |order| && forall c :: CountContest(earlier, c) <= QUOTA
    ensures var picked, turn := Pick(order, RoomLeft(earlier)), |RoomBefore(order, earlier, i)|;
            && NoRepeats(picked)
            && if HasRoomAt(order, earlier, i) then turn < |picked| && picked[turn] == order[i]
               else order[i] !in picked
  {
    hide CountContest, HasRoomAt, RoomLeft, Pick, RoomBefore;
    var room := RoomLeft(earlier);
    PickedBefore(order, earlier, i);
    PickStep(order, earlier, i);
    PickTakes(order, room);
    NoRepeatsPrefix(order, i);
    PickTakes(order[..i], room);
    hide NoRepeats;
    assert order == order[..i + 1] + order[i + 1..];
    PickExtends(order[..i + 1], order[i + 1..], room);
    if !HasRoomAt(order, earlier, i) && order[i] in Pick(order, room) {
      LaterPicked(order, room, i);
    }
  }

  /** The greedy choice takes a row exactly when its contest has room and the choice is not complete
      yet, and at the place its turn gives it. */
  lemma GreedyTakes(order: seq<Row>, earlier: seq<Row>, count: nat, i: nat)
    requires NoRepeats(order) && i < |order| && forall c :: CountContest(earlier, c) <= QUOTA
    ensures var chosen, turn := Greedy(order, earlier, count), |RoomBefore(order, earlier, i)|;
            && (order[i] in chosen <==> HasRoomAt(order, earlier, i) && turn < count)
            && (order[i] in chosen ==> turn < |chosen| && chosen[turn] == order[i])
  {
    hide CountContest, HasRoomAt, RoomLeft, Pick, RoomBefore, NoRepeats;
    var picked, turn := Pick(order, RoomLeft(earlier)), |RoomBefore(order, earlier, i)|;
    PickedAtTurn(order, earlier, i);
    if HasRoomAt(order, earlier, i) {
      CutKeeps(picked, count, turn);
    }
  }

  lemma NoRepeatsPrefix(order: seq<Row>, i: nat)
    requires NoRepeats(order) && i < |order|
    ensures NoRepeats(order[..i]) && order[i] !in order[..i] && order[i] !in order[i + 1..]
  {}

  /** What is picked after position `i` comes after it. */
  lemma {:induction false} LaterPicked(order: seq<Row>, room: nat -> nat, i: nat)
    requires NoRepeats(order) && i < |order| && order[i] in Pick(order, room)
    ensures order[i] in Pick(order[..i + 1], room)
  {
    hide CountContest, Pick;
    var n := |order| - 1;
    assert order == order[..n] + [order[n]];
    if i < n {
      assert order[..n][..i + 1] == order[..i + 1];
      PickNext(order[..n], order[n], room);
      LaterPicked(order[..n], room, i);
    } else {
      assert order[..i + 1] == order;
    }
  }

  ghost predicate Tallies(counts: map<nat, nat>, rows: seq<Row>) {
    forall c :: Get(counts, c) == CountContest(rows, c)
  }

  /** `randomizer.shuffle`: any order of the same elements. */
  method Shuffle<T>(s: seq<T>) returns (r: seq<T>)
    ensures multiset(r) == multiset(s)
  {
    r := [];
    var rest := s;
    while rest != []
      invariant multiset(r) + multiset(rest) == multiset(s)
      decreases |rest|
    {
      var j: nat :| j < |rest|;
      RemoveAt(rest, j);
      r := r + [rest[j]];
      rest := rest[..j] + rest[j + 1..];
    }
  }

  lemma CountNext(rows: seq<Row>, r: Row, contest: nat)
    ensures CountContest(rows + [r], contest) == CountContest(rows, contest) + (if r.contest == contest then 1 else 0)
  {
    assert (rows + [r])[..|rows|] == rows;
  }

  lemma TalliesNext(counts: map<nat, nat>, rows: seq<Row>, r: Row)
    requires Tallies(counts, rows)
    ensures Tallies(counts[r.contest := Get(counts, r.contest) + 1], rows + [r])
  {
    var next := counts[r.contest := Get(counts, r.contest) + 1];
    forall c ensures Get(next, c) == CountContest(rows + [r], c) {
      CountNext(rows, r, c);
      assert Get(counts, c) == CountContest(rows, c);
    }
  }

  /** The inner loop: take candidates in order while their contest has room, up to `count`. */
  method Choose(candidates: seq<Row>, ghost earlier: seq<Row>, counts: map<nat, nat>, count: nat)
    returns (chosen: seq<Row>, after: map<nat, nat>)
    requires count > 0 && Tallies(counts, earlier)
    requires forall c :: CountContest(earlier, c) <= QUOTA
    ensures chosen == Greedy(candidates, earlier, count)
    ensures Tallies(after, earlier + chosen)
  {
    hide CountContest, Get, Tallies, Pick;
    chosen, after := [], counts;
    ghost var room := RoomLeft(earlier);
    PickNothing(room);
    assert earlier + [] == earlier;
    for i := 0 to |candidates|
      invariant chosen == Pick(candidates[..i], room) && |chosen| < count
      invariant Tallies(after, earlier + chosen)
    {
      var r := candidates[i];
      TallyOf(after, earlier, chosen, r.contest);
      assert candidates[..i + 1] == candidates[..i] + [r];
      PickNext(candidates[..i], r, room);
      if Get(after, r.contest) >= QUOTA { continue; }
      TalliesNext(after, earlier + chosen, r);
      assert earlier + (chosen + [r]) == earlier + chosen + [r];
      chosen := chosen + [r];
      after := after[r.contest := Get(after, r.contest) + 1];
      if |chosen| == count {
        assert candidates == candidates[..i + 1] + candidates[i + 1..];
        PickExtends(candidates[..i + 1], candidates[i + 1..], room);
        return;
      }
    }
    assert candidates[..|candidates|] == candidates;
  }

  lemma PickNothing(room: nat -> nat)
    ensures Pick([], room) == []
  {}

  lemma TallyOf(counts: map<nat, nat>, earlier: seq<Row>, chosen: seq<Row>, contest: nat)
    requires Tallies(counts, earlier + chosen)
    ensures Get(counts, contest) == CountContest(earlier, contest) + CountContest(chosen, contest)
  {
    CountConcat(earlier, chosen, contest);
  }

  lemma NewRow(candidates: seq<Row>, chosen: seq<Row>, i: nat)
    requires NoRepeats(candidates) && i < |candidates|
    requires NoRepeats(chosen) && forall r :: r in chosen ==> r in candidates[..i]
    ensures NoRepeats(chosen + [candidates[i]])
  {
    forall k | 0 <= k < |chosen| ensures chosen[k] != candidates[i] {
      assert chosen[k] in candidates[..i];
    }
  }

  // ----- the selection

  /** The rows of one difficulty that have a test archive, each once. */
  ghost predicate IsGroup(rows: map<Problem, Row>, available: set<Problem>, grade: Difficulty, group: seq<Row>) {
    NoRepeats(group) && forall r :: r in group <==> InPool(rows, available, grade, r)
  }

  /** Three choices, each within the quota the ones before it leave. */
  ghost predicate IsScout(rows: map<Problem, Row>, available: set<Problem>, hard: seq<Row>, medium: seq<Row>,
                          easy: seq<Row>)
  {
    && IsChoice(rows, available, Hard, [], hard, 32)
    && IsChoice(rows, available, Medium, hard, medium, 24)
    && IsChoice(rows, available, Easy, hard + medium, easy, 8)
  }

  function Unequal<T(==)>(): (T, T) -> bool {
    (x: T, y: T) => x != y
  }

  lemma PermutedNoRepeats<T(!new)>(a: seq<T>, b: seq<T>)
    requires multiset(a) == multiset(b) && NoRepeats(a)
    ensures NoRepeats(b)
  {
    assert Pairwise(a, Unequal());
    PairwisePermuted(a, b, Unequal());
  }

  lemma ShuffledGroup(rows: map<Problem, Row>, available: set<Problem>, grade: Difficulty, group: seq<Row>,
                      shuffled: seq<Row>)
    requires IsGroup(rows, available, grade, group) && multiset(shuffled) == multiset(group)
    ensures IsGroup(rows, available, grade, shuffled)
  {
    PermutedMembers(group, shuffled);
    PermutedNoRepeats(group, shuffled);
  }

  /** A maximal choice that falls short leaves nothing better. */
  lemma ShortMeansExhausted(rows: map<Problem, Row>, available: set<Problem>, grade: Difficulty, group: seq<Row>,
                            earlier: seq<Row>, chosen: seq<Row>, count: nat)
    requires IsGroup(rows, available, grade, group) && Maximal(group, earlier, chosen) && |chosen| < count
    ensures Exhausted(rows, available, grade, earlier, count)
  {
    forall choice ensures !IsChoice(rows, available, grade, earlier, choice, count) {
      if IsChoice(rows, available, grade, earlier, choice, count) {
        GreedyIsOptimal(group, earlier, chosen, choice);
      }
    }
  }

  /** What the loop makes of one shuffled group: a choice, or proof that there is none. */
  lemma GreedyChooses(rows: map<Problem, Row>, available: set<Problem>, grade: Difficulty, order: seq<Row>,
                      earlier: seq<Row>, count: nat)
    requires IsGroup(rows, available, grade, order) && forall c :: CountContest(earlier, c) <= QUOTA
    ensures var chosen := Greedy(order, earlier, count);
            && (|chosen| < count ==> Exhausted(rows, available, grade, earlier, count))
            && (|chosen| >= count ==> IsChoice(rows, available, grade, earlier, chosen, count))
            && forall c :: CountContest(earlier + chosen, c) <= QUOTA
  {
    var chosen := Greedy(order, earlier, count);
    GreedyFits(order, earlier, count);
    if |chosen| < count {
      ShortMeansExhausted(rows, available, grade, order, earlier, chosen, count);
    }
    forall c ensures CountContest(earlier + chosen, c) <= QUOTA {
      CountConcat(earlier, chosen, c);
    }
  }

  /** The body of the loop over the three difficulties. */
  method Stage(ghost rows: map<Problem, Row>, ghost available: set<Problem>, grade: Difficulty, group: seq<Row>,
               ghost earlier: seq<Row>, counts: map<nat, nat>, count: nat)
    returns (chosen: seq<Row>, after: map<nat, nat>, ghost order: seq<Row>)
    requires count > 0 && IsGroup(rows, available, grade, group) && Tallies(counts, earlier)
    requires forall c :: CountContest(earlier, c) <= QUOTA
    ensures IsGroup(rows, available, grade, order) && chosen == Greedy(order, earlier, count)
    ensures Tallies(after, earlier + chosen) && forall c :: CountContest(earlier + chosen, c) <= QUOTA
  {
    var candidates := Shuffle(group);
    order := candidates;
    ShuffledGroup(rows, available, grade, group, candidates);
    chosen, after := Choose(candidates, earlier, counts, count);
    GreedyChooses(rows, available, grade, order, earlier, count);
  }

  /** The part of a group found among `ids`. */
  ghost predicate IsPart(rows: map<Problem, Row>, available: set<Problem>, grade: Difficulty, ids: seq<Problem>,
                         group: seq<Row>)
  {
    NoRepeats(group) && forall r :: r in group <==> InPool(rows, available, grade, r) && r.problem in ids
  }

  lemma PartNext(rows: map<Problem, Row>, available: set<Problem>, grade: Difficulty, ids: seq<Problem>,
                 group: seq<Row>, p: Problem)
    requires Keyed(rows) && p in rows && p !in ids && IsPart(rows, available, grade, ids, group)
    ensures IsPart(rows, available, grade, ids + [p],
                   if p in available && rows[p].difficulty == grade then group + [rows[p]] else group)
  {
    var row := rows[p];
    if p in available && row.difficulty == grade {
      assert row !in group;
      forall r ensures r in group + [row] <==> InPool(rows, available, grade, r) && r.problem in ids + [p] {}
    }
  }

  ghost predicate IsExcluded(ids: seq<Problem>, available: set<Problem>, excluded: seq<Problem>) {
    StrictlyIncreasing(excluded) && forall p :: p in excluded <==> p in ids && p !in available
  }

  lemma ExcludedNext(ids: seq<Problem>, available: set<Problem>, excluded: seq<Problem>, p: Problem)
    requires IsExcluded(ids, available, excluded) && forall q :: q in ids ==> q < p
    ensures IsExcluded(ids + [p], available, if p in available then excluded else excluded + [p])
  {
    if p !in available {
      assert forall k :: 0 <= k < |excluded| ==> excluded[k] in excluded;
    }
  }

  lemma ExcludedWhole(rows: map<Problem, Row>, ids: seq<Problem>, available: set<Problem>, excluded: seq<Problem>)
    requires IsExcluded(ids, available, excluded) && forall p :: p in ids <==> p in rows
    ensures StrictlyIncreasing(excluded) && forall p :: p in excluded <==> p in rows && p !in available
  {}

  /** Group the available rows by difficulty, in the order of their ids. */
  method GroupRows(rows: map<Problem, Row>, available: set<Problem>)
    returns (groups: map<Difficulty, seq<Row>>, excluded: seq<Problem>)
    requires Keyed(rows)
    ensures groups.Keys == {Easy, Medium, Hard}
    ensures forall g :: g in groups ==> IsGroup(rows, available, g, groups[g])
    ensures StrictlyIncreasing(excluded) && forall p :: p in excluded <==> p in rows && p !in available
  {
    hide InPool, Keyed, IsPart, IsExcluded, IsGroup, Ascending;
    var ids := Ascending(rows.Keys);
    groups, excluded := map[Easy := [], Medium := [], Hard := []], [];
    NothingGrouped(rows, available);
    for i := 0 to |ids|
      invariant groups.Keys == {Easy, Medium, Hard}
      invariant forall g :: g in groups ==> IsPart(rows, available, g, ids[..i], groups[g])
      invariant IsExcluded(ids[..i], available, excluded)
    {
      var p := ids[i];
      assert p in ids;
      assert ids[..i + 1] == ids[..i] + [p];
      NewId(ids, i);
      ExcludedNext(ids[..i], available, excluded, p);
      forall g | g in groups
        ensures IsPart(rows, available, g, ids[..i + 1],
                       if p in available && rows[p].difficulty == g then groups[g] + [rows[p]] else groups[g])
      {
        PartNext(rows, available, g, ids[..i], groups[g], p);
      }
      if p !in available {
        excluded := excluded + [p];
      } else {
        OneOfThree(rows[p].difficulty);
        groups := groups[rows[p].difficulty := groups[rows[p].difficulty] + [rows[p]]];
      }
    }
    assert ids[..|ids|] == ids;
    ExcludedWhole(rows, ids, available, excluded);
    forall g | g in groups ensures IsGroup(rows, available, g, groups[g]) {
      WholeGroup(rows, available, g, ids, groups[g]);
    }
  }

  lemma OneOfThree(grade: Difficulty)
    ensures grade in {Easy, Medium, Hard}
  {}

  lemma NothingGrouped(rows: map<Problem, Row>, available: set<Problem>)
    ensures forall g :: IsPart(rows, available, g, [], [])
    ensures IsExcluded([], available, [])
  {}

  lemma WholeGroup(rows: map<Problem, Row>, available: set<Problem>, grade: Difficulty, ids: seq<Problem>,
                   group: seq<Row>)
    requires IsPart(rows, available, grade, ids, group) && forall p :: p in rows ==> p in ids
    ensures IsGroup(rows, available, grade, group)
  {}

  lemma NewId(ids: seq<Problem>, i: nat)
    requires StrictlyIncreasing(ids) && i < |ids|
    ensures ids[i] !in ids[..i] && forall q :: q in ids[..i] ==> q < ids[i]
  {}

  /** The orders the three shuffles leave the groups in. */
  datatype Orders = Orders(hard: seq<Row>, medium: seq<Row>, easy: seq<Row>)

  ghost predicate AreShuffles(rows: map<Problem, Row>, available: set<Problem>, o: Orders) {
    && IsGroup(rows, available, Hard, o.hard)
    && IsGroup(rows, available, Medium, o.medium)
    && IsGroup(rows, available, Easy, o.easy)
  }

  /** The outcome of the selection, as a function of the three orders. */
  ghost function Outcome(o: Orders): Result<seq<Row>, ScoutError> {
    var hard := Greedy(o.hard, [], 32);
    var medium := Greedy(o.medium, hard, 24);
    var easy := Greedy(o.easy, hard + medium, 8);
    if |hard| < 32 then Err(Insufficient(Hard))
    else if |medium| < 24 then Err(Insufficient(Medium))
    else if |easy| < 8 then Err(Insufficient(Easy))
    else Ok(hard + medium + easy)
  }

  /** A success is a scout; a failure names the first difficulty for which no choice of enough rows
      fits what the earlier choices left. */
  lemma OutcomeMeans(rows: map<Problem, Row>, available: set<Problem>, o: Orders)
    requires AreShuffles(rows, available, o)
    ensures var hard := Greedy(o.hard, [], 32);
            var medium := Greedy(o.medium, hard, 24);
            var easy := Greedy(o.easy, hard + medium, 8);
            match Outcome(o)
            case Ok(selected) => IsScout(rows, available, hard, medium, easy) && selected == hard + medium + easy
            case Err(Insufficient(Hard)) => Exhausted(rows, available, Hard, [], 32)
            case Err(Insufficient(Medium)) =>
              IsChoice(rows, available, Hard, [], hard, 32) && Exhausted(rows, available, Medium, hard, 24)
            case Err(Insufficient(Easy)) =>
              && IsChoice(rows, available, Hard, [], hard, 32) && IsChoice(rows, available, Medium, hard, medium, 24)
              && Exhausted(rows, available, Easy, hard + medium, 8)
  {
    hide Greedy, Exhausted, IsGroup, CountContest, Fits;
    var hard := Greedy(o.hard, [], 32);
    var medium := Greedy(o.medium, hard, 24);
    NothingTallied();
    GreedyChooses(rows, available, Hard, o.hard, [], 32);
    assert [] + hard == hard;
    GreedyChooses(rows, available, Medium, o.medium, hard, 24);
    GreedyChooses(rows, available, Easy, o.easy, hard + medium, 8);
  }

  /** `select_scout` returns the outcome of some shuffles, its rows shuffled once more. */
  method SelectScout(rows: map<Problem, Row>, available: set<Problem>) returns (r: Result<Selection, ScoutError>)
    requires Keyed(rows)
    ensures exists o ::
      && AreShuffles(rows, available, o)
      && match Outcome(o)
         case Ok(selected) => r.Ok? && multiset(r.value.selected) == multiset(selected)
         case Err(error) => r == Err(error)
    ensures r.Ok? ==> exists hard, medium, easy ::
      && IsScout(rows, available, hard, medium, easy)
      && multiset(r.value.selected) == multiset(hard + medium + easy)
    ensures r.Ok? ==>
      StrictlyIncreasing(r.value.excluded) && forall p :: p in r.value.excluded <==> p in rows && p !in available
    ensures r == Err(Insufficient(Hard)) <==> Exhausted(rows, available, Hard, [], 32)
    ensures r == Err(Insufficient(Medium)) ==>
      exists hard :: IsChoice(rows, available, Hard, [], hard, 32) && Exhausted(rows, available, Medium, hard, 24)
    ensures r == Err(Insufficient(Easy)) ==>
      exists hard, medium ::
        && IsChoice(rows, available, Hard, [], hard, 32) && IsChoice(rows, available, Medium, hard, medium, 24)
        && Exhausted(rows, available, Easy, hard + medium, 8)
  {
    hide CountContest, InPool, Fits, Tallies, Get, IsGroup, Greedy;
    var groups, excluded := GroupRows(rows, available);
    var counts: map<nat, nat> := map[];
    NothingTallied();
    var hard, medium, easy;
    ghost var o := Orders(groups[Hard], groups[Medium], groups[Easy]);
    ghost var hardOrder, mediumOrder, easyOrder;
    hard, counts, hardOrder := Stage(rows, available, Hard, groups[Hard], [], counts, 32);
    o := o.(hard := hardOrder);
    OutcomeMeans(rows, available, o);
    assert [] + hard == hard;
    if |hard| < 32 { return Err(Insufficient(Hard)); }
    medium, counts, mediumOrder := Stage(rows, available, Medium, groups[Medium], hard, counts, 24);
    o := o.(medium := mediumOrder);
    OutcomeMeans(rows, available, o);
    if |medium| < 24 { return Err(Insufficient(Medium)); }
    easy, counts, easyOrder := Stage(rows, available, Easy, groups[Easy], hard + medium, counts, 8);
    o := o.(easy := easyOrder);
    OutcomeMeans(rows, available, o);
    if |easy| < 8 { return Err(Insufficient(Easy)); }
    var selected := Shuffle(hard + medium + easy);
    r := Ok(Selection(selected, excluded));
  }

  lemma NothingTallied()
    ensures Tallies(map[], []) && forall c :: CountContest([], c) == 0
  {}

  // ----- what a scout is worth

  ghost function Graded(rows: seq<Row>, grade: Difficulty): set<Row> {
    set r | r in rows && r.difficulty == grade
  }

  lemma {:induction false} MembersCount<T>(s: seq<T>)
    requires NoRepeats(s)
    ensures |set x | x in s| == |s|
  {
    if s != [] {
      var n := |s| - 1;
      MembersCount(s[..n]);
      assert s == s[..n] + [s[n]];
      assert (set x | x in s) == (set x | x in s[..n]) + {s[n]};
      assert s[n] !in s[..n];
    }
  }

  lemma GradedChoice(rows: map<Problem, Row>, available: set<Problem>, grade: Difficulty, earlier: seq<Row>,
                     choice: seq<Row>, count: nat, selected: seq<Row>)
    requires IsChoice(rows, available, grade, earlier, choice, count)
    requires forall r :: r in choice ==> r in selected
    requires forall r :: r in selected && r.difficulty == grade ==> r in choice
    ensures |Graded(selected, grade)| == count
  {
    MembersCount(choice);
    assert Graded(selected, grade) == set r | r in choice;
  }

  /** Exactly 32 hard, 24 medium and 8 easy rows, all different and available, and at most two of
      any contest over the three together. */
  lemma ScoutIsBalanced(rows: map<Problem, Row>, available: set<Problem>, hard: seq<Row>, medium: seq<Row>,
                        easy: seq<Row>, selected: seq<Row>)
    requires IsScout(rows, available, hard, medium, easy) && multiset(selected) == multiset(hard + medium + easy)
    ensures NoRepeats(selected) && |selected| == 64
    ensures |Graded(selected, Hard)| == 32 && |Graded(selected, Medium)| == 24 && |Graded(selected, Easy)| == 8
    ensures forall r :: r in selected ==> r.problem in available && r.problem in rows && rows[r.problem] == r
    ensures forall c :: CountContest(selected, c) <= QUOTA
  {
    var all := hard + medium + easy;
    PermutedMembers(all, selected);
    assert |multiset(selected)| == |selected| && |multiset(all)| == |all|;
    AllDifferent(rows, available, hard, medium, easy);
    PermutedNoRepeats(all, selected);
    GradedChoice(rows, available, Hard, [], hard, 32, selected);
    GradedChoice(rows, available, Medium, hard, medium, 24, selected);
    GradedChoice(rows, available, Easy, hard + medium, easy, 8, selected);
    forall c ensures CountContest(selected, c) <= QUOTA {
      CountPermuted(selected, all, c);
      CountConcat(hard + medium, easy, c);
    }
  }

  lemma AllDifferent(rows: map<Problem, Row>, available: set<Problem>, hard: seq<Row>, medium: seq<Row>, easy: seq<Row>)
    requires IsScout(rows, available, hard, medium, easy)
    ensures NoRepeats(hard + medium + easy)
  {
    var all := hard + medium + easy;
    forall i, j | 0 <= i < j < |all| ensures all[i] != all[j] {
      assert i < |hard| ==> all[i] in hard;
      assert |hard| <= i < |hard| + |medium| ==> all[i] in medium;
      assert |hard| <= j < |hard| + |medium| ==> all[j] in medium;
      assert |hard| + |medium| <= j ==> all[j] in easy;
    }
  }
}
