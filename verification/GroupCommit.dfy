/**
 Group commit (db/db_impl.cc Write, BuildBatchGroup): writers queue up, the first of them writes
 for several, and everybody is told the outcome. The steps are those between which the mutex is free.
 */
module GroupCommit {
  import opened Options
  import opened Histories

  /** A queued writer: its batch, the batch's size in bytes, whether it asked for a sync. */
  datatype Writer = Writer(id: nat, ops: seq<Op>, size: nat, sync: bool)

  // ---- BuildBatchGroup ----

  function MaxSize(size: nat): nat {
    if size <= 0x2_0000 then size + 0x2_0000 else 0x10_0000
  }

  function TotalSize(ws: seq<Writer>): nat {
    if ws == [] then 0 else TotalSize(ws[..|ws| - 1]) + ws[|ws| - 1].size
  }

  /** Writer i may still join the group of the writers before it. */
  predicate Joins(queue: seq<Writer>, i: nat)
    requires 0 < i < |queue|
  {
    !(queue[i].sync && !queue[0].sync) && TotalSize(queue[..i + 1]) <= MaxSize(queue[0].size)
  }

  /** The group is the longest front of the queue whose members may all join. */
  ghost predicate IsGroup(queue: seq<Writer>, n: nat) {
    && 0 < n <= |queue| && (forall i | 0 < i < n :: Joins(queue, i)) && (n < |queue| ==> !Joins(queue, n))
  }

  function AllOps(ws: seq<Writer>): seq<Op> {
    if ws == [] then [] else AllOps(ws[..|ws| - 1]) + ws[|ws| - 1].ops
  }

  method BuildBatchGroup(queue: seq<Writer>) returns (n: nat, result: seq<Op>)
    requires queue != []
    ensures IsGroup(queue, n) && result == AllOps(queue[..n])
    ensures n > 1 ==> TotalSize(queue[..n]) <= 1048576 && (queue[0].size <= 131072 ==> TotalSize(queue[..n]) <= queue[0].size + 131072)
    ensures n < |queue| ==> (queue[n].sync && !queue[0].sync) || TotalSize(queue[..n + 1]) > (if queue[0].size <= 131072 then queue[0].size + 131072 else 1048576)
  {
    var first := queue[0];
    var size := first.size;
    assert queue[..1] == [first] && queue[..1][..0] == [];
    n, result := 1, first.ops;
    while n < |queue|
      invariant 0 < n <= |queue| && size == TotalSize(queue[..n]) && result == AllOps(queue[..n])
      invariant forall i | 0 < i < n :: Joins(queue, i)
    {
      var w := queue[n];
      assert queue[..n + 1][..n] == queue[..n];
      if w.sync && !first.sync {
        break;
      }
      size := size + w.size;
      if size > MaxSize(first.size) {
        break;
      }
      result := result + w.ops;
      n := n + 1;
    }
    if n > 1 { assert Joins(queue, n - 1) && queue[..n - 1 + 1] == queue[..n]; }
  }

  // ---- The protocol ----

  /** How far the leader has come; the last two end in failure. */
  datatype Stage = Logging | Syncing | Inserting | LogFailed | SyncFailed

  /** One group: the numbers it took start at `first`; so many of its operations are in the memtable. */
  datatype Group = Group(members: seq<Writer>, first: nat, logged: bool, synced: bool, inserted: nat, stage: Stage) {
    function Ops(): seq<Op> {
      AllOps(members)
    }

    /** The status every member returns. */
    predicate Succeeded() {
      stage == Inserting
    }
  }

  datatype State = State(
    queue: seq<Writer>,
    current: Option<Group>,
    lastSequence: nat,
    backgroundError: bool,
    returned: map<nat, bool>,   // by writer: whether the status was OK
    arrived: seq<Writer>,       // every writer that ever came, in order
    groups: seq<Group>,         // the groups that have finished
    rejected: seq<Writer>)      // turned away after a background error

  ghost predicate Init(st: State) {
    st == State([], None, 0, false, map[], [], [], [])
  }

  ghost predicate Enqueue(st: State, st': State, w: Writer) {
    && (forall x | x in st.arrived :: x.id != w.id)
    && st' == st.(queue := st.queue + [w], arrived := st.arrived + [w])
  }

  /** MakeRoomForWrite fails after a background error, and the writer leaves alone. */
  ghost predicate Reject(st: State, st': State) {
    && st.current.None? && st.queue != [] && st.backgroundError
    && st' == st.(queue := st.queue[1..], returned := st.returned[st.queue[0].id := false], rejected := st.rejected + [st.queue[0]])
  }

  ghost predicate Start(st: State, st': State, n: nat) {
    && st.current.None? && !st.backgroundError && IsGroup(st.queue, n)
    && st' == st.(current := Some(Group(st.queue[..n], st.lastSequence + 1, false, false, 0, Logging)))
  }

  ghost predicate AppendToLog(st: State, st': State, ok: bool) {
    && st.current.Some? && st.current.value.stage == Logging && st.current.value.members != []
    && var g := st.current.value;
      st' == st.(current := Some(if ok then g.(logged := true, stage := if g.members[0].sync then Syncing else Inserting)
                                 else g.(stage := LogFailed)))
  }

  ghost predicate SyncLog(st: State, st': State, ok: bool) {
    && st.current.Some? && st.current.value.stage == Syncing
    && var g := st.current.value;
      st' == st.(current := Some(if ok then g.(synced := true, stage := Inserting) else g.(stage := SyncFailed)))
  }

  ghost predicate InsertNext(st: State, st': State) {
    && st.current.Some? && st.current.value.stage == Inserting && st.current.value.inserted < |st.current.value.Ops()|
    && var g := st.current.value;
      st' == st.(current := Some(g.(inserted := g.inserted + 1)))
  }

  /** A failed compaction or flush elsewhere. */
  ghost predicate BackgroundFails(st: State, st': State) {
    st' == st.(backgroundError := true)
  }

  function Told(returned: map<nat, bool>, ws: seq<Writer>, ok: bool): map<nat, bool> {
    if ws == [] then returned else Told(returned, ws[..|ws| - 1], ok)[ws[|ws| - 1].id := ok]
  }

  /** The numbers count as used whether or not the group succeeded; every member leaves with its status. */
  ghost predicate Finish(st: State, st': State) {
    && st.current.Some?
    && var g := st.current.value;
      && (g.stage == LogFailed || g.stage == SyncFailed || (g.stage == Inserting && g.inserted == |g.Ops()|))
      && |g.members| <= |st.queue|
      && st' == st.(queue := st.queue[|g.members|..], current := None, lastSequence := st.lastSequence + |g.Ops()|,
                    backgroundError := st.backgroundError || g.stage == SyncFailed,
                    returned := Told(st.returned, g.members, g.Succeeded()), groups := st.groups + [g])
  }

  ghost predicate Next(st: State, st': State) {
    || (exists w :: Enqueue(st, st', w))
    || Reject(st, st')
    || (exists n :: Start(st, st', n))
    || (exists ok :: AppendToLog(st, st', ok))
    || (exists ok :: SyncLog(st, st', ok))
    || InsertNext(st, st')
    || Finish(st, st')
    || BackgroundFails(st, st')
  }

  // ---- The invariant ----

  function Members(groups: seq<Group>): seq<Writer> {
    if groups == [] then [] else Members(groups[..|groups| - 1]) + groups[|groups| - 1].members
  }

  /** The last number the groups took, when they took consecutive ones. */
  function Taken(groups: seq<Group>): nat {
    if groups == [] then 0 else Taken(groups[..|groups| - 1]) + |groups[|groups| - 1].Ops()|
  }

  /** Every group starts right after the numbers of the one before. */
  ghost predicate Consecutive(groups: seq<Group>) {
    forall i | 0 <= i < |groups| :: groups[i].first == Taken(groups[..i]) + 1
  }

  /** What a group has done so far fits its stage. */
  ghost predicate GroupOk(g: Group) {
    && g.members != [] && (forall w | w in g.members && w.sync :: g.members[0].sync)
    && g.inserted <= |g.Ops()| && (g.inserted > 0 ==> g.stage == Inserting)
    && (g.stage == Syncing || g.stage == SyncFailed || g.stage == Inserting ==> g.logged)
    && (g.stage == Inserting && g.members[0].sync ==> g.synced)
  }

  /** A finished group is in the memtable as a whole, or not at all. */
  ghost predicate Finished(g: Group) {
    GroupOk(g) && if g.Succeeded() then g.inserted == |g.Ops()| else g.inserted == 0
  }

  ghost predicate DistinctIds(ws: seq<Writer>) {
    forall i, j | 0 <= i < j < |ws| :: ws[i].id != ws[j].id
  }

  /** The members of finished groups, the rejected ones and the queue are all who came; nobody came twice. */
  ghost predicate QueueOk(st: State) {
    && DistinctIds(st.arrived)
    && Members(st.groups) + st.rejected + st.queue == st.arrived
    && (st.rejected != [] ==> st.backgroundError && st.current.None?)
  }

  ghost predicate CurrentOk(st: State) {
    st.current.Some? ==>
      var g := st.current.value;
      GroupOk(g) && g.members <= st.queue && g.first == st.lastSequence + 1
  }

  /** Exactly those who left have a status; it is OK exactly if their group succeeded. */
  ghost predicate ReturnedOk(st: State) {
    && (forall w | w in Members(st.groups) + st.rejected :: w.id in st.returned)
    && (forall id | id in st.returned :: exists w :: w in Members(st.groups) + st.rejected && w.id == id)
    && (forall i, w | 0 <= i < |st.groups| && w in st.groups[i].members && w.id in st.returned :: st.returned[w.id] == st.groups[i].Succeeded())
    && (forall w | w in st.rejected && w.id in st.returned :: !st.returned[w.id])
  }

  ghost predicate Inv(st: State) {
    && QueueOk(st) && CurrentOk(st) && ReturnedOk(st)
    && Consecutive(st.groups) && st.lastSequence == Taken(st.groups)
    && forall i | 0 <= i < |st.groups| :: Finished(st.groups[i])
  }

  lemma InitHasInv(st: State)
    requires Init(st)
    ensures Inv(st)
  {
  }

  lemma MembersAppend(groups: seq<Group>, g: Group)
    ensures Members(groups + [g]) == Members(groups) + g.members && Taken(groups + [g]) == Taken(groups) + |g.Ops()|
  {
    assert (groups + [g])[..|groups|] == groups;
  }

  lemma {:induction false} MemberOf(groups: seq<Group>, i: nat, w: Writer)
    requires i < |groups| && w in groups[i].members
    ensures w in Members(groups)
  {
    if i < |groups| - 1 {
      MemberOf(groups[..|groups| - 1], i, w);
    }
  }

  lemma {:induction false} ToldAll(returned: map<nat, bool>, ws: seq<Writer>, ok: bool)
    ensures forall id :: id in Told(returned, ws, ok) <==> id in returned || exists w :: w in ws && w.id == id
    ensures forall w | w in ws :: Told(returned, ws, ok)[w.id] == ok
    ensures forall id | id in returned && (forall w | w in ws :: w.id != id) :: Told(returned, ws, ok)[id] == returned[id]
  {
    if ws != [] {
      var (rest, last) := (ws[..|ws| - 1], ws[|ws| - 1]);
      ToldAll(returned, rest, ok);
      assert forall w :: w in ws <==> w in rest || w == last;
    }
  }

  /** Writers at different places of the arrival order are different. */
  lemma PartsDiffer(a: seq<Writer>, b: seq<Writer>)
    requires DistinctIds(a + b)
    ensures forall x, y | x in a && y in b :: x.id != y.id
  {
    forall x, y | x in a && y in b ensures x.id != y.id {
      var i :| 0 <= i < |a| && a[i] == x;
      var j :| 0 <= j < |b| && b[j] == y;
      assert (a + b)[i] == x && (a + b)[|a| + j] == y;
    }
  }

  /** Those who left are not in the queue any more. */
  lemma GoneAreNotQueued(st: State)
    requires QueueOk(st)
    ensures forall x, y | x in Members(st.groups) + st.rejected && y in st.queue :: x.id != y.id
    ensures forall x, y | x in Members(st.groups) && y in st.rejected :: x.id != y.id
  {
    PartsDiffer(Members(st.groups) + st.rejected, st.queue);
    var gone := Members(st.groups) + st.rejected;
    assert forall i | 0 <= i < |gone| :: gone[i] == (gone + st.queue)[i];
    assert DistinctIds(gone);
    PartsDiffer(Members(st.groups), st.rejected);
  }

  lemma EnqueueKeepsInv(st: State, st': State, w: Writer)
    requires Inv(st) && Enqueue(st, st', w)
    ensures Inv(st')
  {
    assert Members(st.groups) + st.rejected + (st.queue + [w]) == st.arrived + [w];
    if st.current.Some? {
      assert st.current.value.members <= st'.queue;
    }
  }

  lemma RejectKeepsInv(st: State, st': State)
    requires Inv(st) && Reject(st, st')
    ensures Inv(st')
  {
    var w := st.queue[0];
    GoneAreNotQueued(st);
    assert w in st.queue && st.queue == [w] + st.queue[1..];
    assert Members(st.groups) + (st.rejected + [w]) + st.queue[1..] == st.arrived;
    forall i, v | 0 <= i < |st.groups| && v in st.groups[i].members ensures v in Members(st.groups) {
      MemberOf(st.groups, i, v);
    }
    RejectedReturned(st, st', w);
  }

  lemma RejectedReturned(st: State, st': State, w: Writer)
    requires ReturnedOk(st) && Reject(st, st') && w == st.queue[0]
    requires forall x | x in Members(st.groups) + st.rejected :: x.id != w.id
    requires forall i, v | 0 <= i < |st.groups| && v in st.groups[i].members :: v in Members(st.groups)
    ensures ReturnedOk(st')
  {
    forall x | x in Members(st'.groups) + st'.rejected ensures x.id in st'.returned {
      assert x == w || x in Members(st.groups) + st.rejected;
    }
    forall id | id in st'.returned ensures exists x :: x in Members(st'.groups) + st'.rejected && x.id == id {
      RejectedIsKnown(st, st', w, id);
    }
    RejectedFailed(st, st', w);
  }

  /** Whoever has returned is in a group or was rejected. */
  lemma RejectedIsKnown(st: State, st': State, w: Writer, id: nat)
    requires ReturnedOk(st) && Reject(st, st') && w == st.queue[0] && id in st'.returned
    ensures exists x :: x in Members(st'.groups) + st'.rejected && x.id == id
  {
    if id == w.id {
      assert w in Members(st'.groups) + st'.rejected;
    } else {
      var x :| x in Members(st.groups) + st.rejected && x.id == id;
      assert x in Members(st'.groups) + st'.rejected;
    }
  }

  /** Only the rejected writer's answer is new, and it is a failure. */
  lemma RejectedFailed(st: State, st': State, w: Writer)
    requires ReturnedOk(st) && Reject(st, st') && w == st.queue[0]
    requires forall x | x in Members(st.groups) + st.rejected :: x.id != w.id
    requires forall i, v | 0 <= i < |st.groups| && v in st.groups[i].members :: v in Members(st.groups)
    ensures forall x | x in st'.rejected && x.id in st'.returned :: !st'.returned[x.id]
    ensures forall i, v | 0 <= i < |st'.groups| && v in st'.groups[i].members && v.id in st'.returned ::
      st'.returned[v.id] == st'.groups[i].Succeeded()
  {
    forall x | x in st'.rejected && x.id in st'.returned ensures !st'.returned[x.id] {
      assert x == w || (x in st.rejected && x in Members(st.groups) + st.rejected);
    }
    forall i, v | 0 <= i < |st'.groups| && v in st'.groups[i].members && v.id in st'.returned
      ensures st'.returned[v.id] == st'.groups[i].Succeeded()
    {
      assert v in Members(st.groups) + st.rejected;
    }
  }

  /** A group never mixes writers that asked for a sync with a leader that did not. */
  lemma StartKeepsInv(st: State, st': State, n: nat)
    requires Inv(st) && Start(st, st', n)
    ensures Inv(st')
  {
    var members := st.queue[..n];
    forall w | w in members && w.sync ensures members[0].sync {
      var i :| 0 <= i < n && members[i] == w;
      if i > 0 { assert Joins(st.queue, i); }
    }
  }

  lemma WorkKeepsInv(st: State, st': State)
    requires Inv(st)
    requires (exists ok :: AppendToLog(st, st', ok)) || (exists ok :: SyncLog(st, st', ok)) || InsertNext(st, st')
    ensures Inv(st')
  {
  }

  lemma FinishKeepsQueue(st: State, st': State, g: Group)
    requires QueueOk(st) && Finish(st, st') && g == st.current.value && g.members <= st.queue
    ensures QueueOk(st') && st.rejected == [] && Members(st'.groups) == Members(st.groups) + g.members
    ensures Taken(st'.groups) == Taken(st.groups) + |g.Ops()|
  {
    var rest := st.queue[|g.members|..];
    MembersAppend(st.groups, g);
    assert st.queue == g.members + rest;
    assert Members(st.groups) + [] + (g.members + rest) == Members(st.groups) + g.members + [] + rest;
  }

  lemma FinishKeepsGroups(st: State, st': State, g: Group)
    requires Consecutive(st.groups) && (forall i | 0 <= i < |st.groups| :: Finished(st.groups[i]))
    requires Finish(st, st') && g == st.current.value && GroupOk(g) && g.first == Taken(st.groups) + 1
    ensures Consecutive(st'.groups) && forall i | 0 <= i < |st'.groups| :: Finished(st'.groups[i])
  {
    forall i | 0 <= i < |st'.groups| ensures st'.groups[i].first == Taken(st'.groups[..i]) + 1 {
      assert st'.groups[..i] == st.groups[..i];
      assert i == |st.groups| ==> st.groups[..i] == st.groups;
    }
  }

  lemma FinishKeepsInv(st: State, st': State)
    requires Inv(st) && Finish(st, st')
    ensures Inv(st')
  {
    var g := st.current.value;
    FinishKeepsQueue(st, st', g);
    FinishKeepsGroups(st, st', g);
    FinishReturns(st, st', g);
  }

  lemma FinishReturns(st: State, st': State, g: Group)
    requires QueueOk(st) && ReturnedOk(st) && Finish(st, st') && g == st.current.value && g.members <= st.queue
    requires Members(st'.groups) == Members(st.groups) + g.members && st.rejected == []
    ensures ReturnedOk(st')
  {
    GoneAreNotQueued(st);
    ToldAll(st.returned, g.members, g.Succeeded());
    assert forall w | w in g.members :: w in st.queue;
    forall id | id in st'.returned ensures exists x :: x in Members(st'.groups) + st'.rejected && x.id == id {
      if w :| w in g.members && w.id == id {
        assert w in Members(st'.groups) + st'.rejected;
      } else {
        var x :| x in Members(st.groups) + st.rejected && x.id == id;
        assert x in Members(st'.groups) + st'.rejected;
      }
    }
    forall i, w | 0 <= i < |st'.groups| && w in st'.groups[i].members
      ensures w.id in st'.returned && st'.returned[w.id] == st'.groups[i].Succeeded()
    {
      if i < |st.groups| {
        MemberOf(st.groups, i, w);
        assert w in Members(st.groups) + st.rejected;
      }
    }
  }

  lemma StepKeepsInv(st: State, st': State)
    requires Inv(st) && Next(st, st')
    ensures Inv(st')
  {
    if w :| Enqueue(st, st', w) {
      EnqueueKeepsInv(st, st', w);
    } else if Reject(st, st') {
      RejectKeepsInv(st, st');
    } else if n :| Start(st, st', n) {
      StartKeepsInv(st, st', n);
    } else if Finish(st, st') {
      FinishKeepsInv(st, st');
    } else if BackgroundFails(st, st') {
    } else {
      WorkKeepsInv(st, st');
    }
  }

  // ---- Every interleaving ----

  ghost predicate IsRun(run: seq<State>) {
    run != [] && Init(run[0]) && forall i | 0 < i < |run| :: StepAt(run, i)
  }

  ghost predicate StepAt(run: seq<State>, i: nat)
    requires 0 < i < |run|
  {
    Next(run[i - 1], run[i])
  }

  lemma {:induction false} RunKeepsInv(run: seq<State>, i: nat)
    requires IsRun(run) && i < |run|
    ensures Inv(run[i])
  {
    if i == 0 {
      InitHasInv(run[0]);
    } else {
      RunKeepsInv(run, i - 1);
      assert StepAt(run, i);
      StepKeepsInv(run[i - 1], run[i]);
    }
  }

  /** Everybody who was told OK is in a group that was logged, wholly inserted, and synced if they asked for that. */
  lemma OkMeansDone(run: seq<State>, i: nat, w: Writer) returns (k: nat)
    requires IsRun(run) && i < |run| && w in run[i].arrived && w.id in run[i].returned && run[i].returned[w.id]
    ensures k < |run[i].groups| && var g := run[i].groups[k];
      w in g.members && g.logged && g.inserted == |g.Ops()| && (w.sync ==> g.synced)
  {
    RunKeepsInv(run, i);
    var st := run[i];
    GoneAreNotQueued(st);
    var x :| x in Members(st.groups) + st.rejected && x.id == w.id;
    assert w in Members(st.groups) + st.rejected || w in st.queue by {
      assert w in Members(st.groups) + st.rejected + st.queue;
    }
    k := GroupOfMember(st.groups, w);
  }

  lemma {:induction false} GroupOfMember(groups: seq<Group>, w: Writer) returns (k: nat)
    requires w in Members(groups)
    ensures k < |groups| && w in groups[k].members
  {
    if w in groups[|groups| - 1].members {
      k := |groups| - 1;
    } else {
      k := GroupOfMember(groups[..|groups| - 1], w);
    }
  }

  /** A failed sync is the end of writing: its group is the last one, and nobody starts another. */
  ghost predicate StoppedBySync(st: State) {
    forall i | 0 <= i < |st.groups| && st.groups[i].stage == SyncFailed :: i == |st.groups| - 1 && st.backgroundError && st.current.None?
  }

  lemma StepKeepsStopped(st: State, st': State)
    requires StoppedBySync(st) && Next(st, st')
    ensures StoppedBySync(st')
  {
  }

  lemma {:induction false} RunKeepsStopped(run: seq<State>, i: nat)
    requires IsRun(run) && i < |run|
    ensures StoppedBySync(run[i])
  {
    if i > 0 {
      RunKeepsStopped(run, i - 1);
      assert StepAt(run, i);
      StepKeepsStopped(run[i - 1], run[i]);
    }
  }

  /** Whoever is told OK was in a group before the one that failed to sync; nobody after it is. */
  lemma NoneAfterFailedSync(run: seq<State>, i: nat, k: nat, w: Writer) returns (j: nat)
    requires IsRun(run) && i < |run| && k < |run[i].groups| && run[i].groups[k].stage == SyncFailed
    requires w in run[i].arrived && w.id in run[i].returned && run[i].returned[w.id]
    ensures j < k == |run[i].groups| - 1 && w in run[i].groups[j].members
  {
    RunKeepsInv(run, i);
    RunKeepsStopped(run, i);
    j := OkMeansDone(run, i, w);
    assert run[i].returned[w.id] == run[i].groups[j].Succeeded();
  }

  /** Batches are written in the order of the queue, each at most once, and take consecutive numbers. */
  lemma QueueOrder(run: seq<State>, i: nat)
    requires IsRun(run) && i < |run|
    ensures Members(run[i].groups) <= run[i].arrived && DistinctIds(run[i].arrived)
    ensures Consecutive(run[i].groups) && run[i].lastSequence == Taken(run[i].groups)
  {
    RunKeepsInv(run, i);
    var st := run[i];
    assert Members(st.groups) + st.rejected + st.queue == Members(st.groups) + (st.rejected + st.queue);
  }

  /** All groups that may have entries in the memtable. */
  function AllGroups(st: State): seq<Group> {
    st.groups + (if st.current.Some? then [st.current.value] else [])
  }

  /** Operation j of the group is in the memtable, and a reader at the last sequence sees it. */
  ghost predicate Visible(st: State, g: Group, j: nat) {
    j < g.inserted && g.first + j <= st.lastSequence
  }

  lemma {:induction false} TakenGrows(groups: seq<Group>, i: nat)
    requires i < |groups|
    ensures Taken(groups[..i]) + |groups[i].Ops()| <= Taken(groups)
  {
    if i < |groups| - 1 {
      TakenGrows(groups[..|groups| - 1], i);
      assert groups[..|groups| - 1][..i] == groups[..i];
    } else {
      assert groups[..i] == groups[..|groups| - 1];
    }
  }

  /** A reader who sees one operation of a group sees all of them. */
  lemma ReadersSeeWholeGroups(run: seq<State>, i: nat, k: nat, j: nat, m: nat)
    requires IsRun(run) && i < |run| && k < |AllGroups(run[i])|
    requires var g := AllGroups(run[i])[k]; Visible(run[i], g, j) && m < |g.Ops()|
    ensures Visible(run[i], AllGroups(run[i])[k], m)
  {
    RunKeepsInv(run, i);
    var st := run[i];
    if k < |st.groups| {
      assert Finished(st.groups[k]);
      TakenGrows(st.groups, k);
    }
  }
}
