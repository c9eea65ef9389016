/** Epoch-based reclamation: the records, the reader sections, the deferred callbacks and the
    pollers of ck_epoch, as a state machine with one shared load, store, exchange or
    compare-and-swap per step. Any number of records may be registered, each one used by one
    thread; memory is sequentially consistent and counters do not wrap. */
module Epoch {
  /** Names a section; every begin uses a new one, so an ended section never comes back. */
  type SectionId = nat

  /** Names an object whose destruction may be deferred. */
  type ObjectId = nat

  /** `ck_epoch_ref`. */
  datatype Bucket = Bucket(epoch: nat, count: nat)

  /** `ck_epoch_record`. The record's open sections are `plain` when its begins pass no section
      object, and `held[i]` for the section objects that point at bucket i. */
  datatype Record = Record(
    used: bool,
    sectioned: bool,
    epoch: nat,
    active: nat,
    bucket: seq<Bucket>,
    plain: set<SectionId>,
    held: seq<set<SectionId>>,
    pending: seq<seq<ObjectId>>)

  /** Where a section lives and the value of the global epoch its begin loaded last. */
  datatype Section = Section(rec: nat, epoch: nat)

  /** The life of an object. `guards` are the sections that were open when it was unlinked. */
  datatype Object =
    | Unlinked(guards: set<SectionId>)
    | Calling(caller: nat, guards: set<SectionId>)
    | Pending(caller: nat, epoch: nat, guards: set<SectionId>)
    | Done(guards: set<SectionId>)

  /** What a scan is for: a poll that loaded epoch `e`, or round `round` of a synchronize that
      loaded `e` first and, for a barrier, reclaims afterwards. */
  datatype Op = Poll(e: nat) | Sync(e: nat, round: nat, barrier: bool)

  /** The shared load that ck_epoch_scan makes next: of the head of the stack of records, or of a field of
      the record under its cursor. */
  datatype Look = LookHead | LookState | LookActive | LookEpoch

  /** The locals of a scan: the epoch compared with, the cursor, and whether anybody was active.
      `open` is history: the sections open when the operation loaded the global epoch. */
  datatype Walk = Walk(op: Op, delta: nat, at: int, look: Look, af: bool, open: set<SectionId>)

  /** Where the thread of a record stands. `open` is as in Walk. */
  datatype Pc =
    | Idle
    | BeginLoad
    | BeginStore(e: nat)
    | AddRef
    | DelRef(i: nat)
    | CallPush(obj: ObjectId, e: nat)
    | PollPop(e: nat, open: set<SectionId>)
    | Scan(walk: Walk)
    | Reload(op: Op, delta: nat, at: int, open: set<SectionId>)
    | Advance(op: Op, delta: nat, open: set<SectionId>)
    | PollLast(e: nat, open: set<SectionId>)
    | Drain(k: nat, open: set<SectionId>)
    | FreeRecord

  /** `global` is the global epoch; records are listed from the oldest to the newest, so the
      stack that scans walk starts at the last one. */
  datatype State = State(
    global: nat,
    recs: seq<Record>,
    pcs: seq<Pc>,
    sections: seq<Section>,
    objs: map<ObjectId, Object>)

  const LISTS := 4   // CK_EPOCH_LENGTH
  const GRACE := 3   // CK_EPOCH_GRACE

  ghost predicate OpenIn(r: Record, sid: SectionId) {
    sid in r.plain || (|r.held| == 2 && (sid in r.held[0] || sid in r.held[1]))
  }

  ghost predicate IsOpen(s: State, sid: SectionId) {
    sid < |s.sections| && s.sections[sid].rec < |s.recs| && OpenIn(s.recs[s.sections[sid].rec], sid)
  }

  ghost function AllOpen(s: State): set<SectionId> {
    set sid: SectionId | 0 <= sid < |s.sections| && IsOpen(s, sid)
  }

  /** The sections `ids` all began and none of them is open any more. */
  ghost predicate Ended(s: State, ids: set<SectionId>) {
    forall sid | sid in ids :: sid < |s.sections| && !IsOpen(s, sid)
  }

  // ----- helpers to write a step

  ghost predicate Live(s: State, t: nat) {
    t < |s.recs| == |s.pcs| && s.recs[t].used
  }

  function Go(s: State, t: nat, pc: Pc): State
    requires t < |s.pcs|
  {
    s.(pcs := s.pcs[t := pc])
  }

  function Put(s: State, t: nat, r: Record, pc: Pc): State
    requires t < |s.recs| && t < |s.pcs|
  {
    s.(recs := s.recs[t := r], pcs := s.pcs[t := pc])
  }

  function NewRecord(sectioned: bool): Record {
    Record(true, sectioned, 0, 0, [Bucket(0, 0), Bucket(0, 0)], {}, [{}, {}], [[], [], [], []])
  }

  // ----- registration

  ghost predicate Init(s: State) {
    s == State(1, [], [], [], map[])
  }

  ghost predicate Register(s: State, s': State, sectioned: bool) {
    s' == s.(recs := s.recs + [NewRecord(sectioned)], pcs := s.pcs + [Idle])
  }

  /** Every field is cleared before the state is published; callers do this outside sections. */
  ghost predicate Unregister(s: State, s': State, t: nat) {
    && Live(s, t) && s.pcs[t] == Idle && s.recs[t].active == 0
    && s' == Put(s, t, NewRecord(s.recs[t].sectioned), FreeRecord)
  }

  ghost predicate MarkFree(s: State, s': State, t: nat) {
    && Live(s, t) && s.pcs[t] == FreeRecord
    && s' == Put(s, t, s.recs[t].(used := false), Idle)
  }

  ghost predicate Recycle(s: State, s': State, t: nat, sectioned: bool) {
    && t < |s.recs| == |s.pcs| && !s.recs[t].used
    && s' == s.(recs := s.recs[t := s.recs[t].(used := true, sectioned := sectioned)])
  }

  // ----- sections

  ghost predicate BeginOuter(s: State, s': State, t: nat) {
    && Live(s, t) && s.pcs[t] == Idle && s.recs[t].active == 0
    && s' == Put(s, t, s.recs[t].(active := 1), BeginLoad)
  }

  /** Loads the global epoch. Without a section object the section counts as open from here. */
  ghost predicate BeginLoads(s: State, s': State, t: nat) {
    && Live(s, t) && s.pcs[t] == BeginLoad
    && s' == (if s.recs[t].sectioned then Go(s, t, BeginStore(s.global))
              else Put(s, t, s.recs[t].(plain := s.recs[t].plain + {|s.sections|}), BeginStore(s.global))
                   .(sections := s.sections + [Section(t, s.global)]))
  }

  ghost predicate BeginStores(s: State, s': State, t: nat) {
    && Live(s, t) && s.pcs[t].BeginStore?
    && s' == Put(s, t, s.recs[t].(epoch := s.pcs[t].e), if s.recs[t].sectioned then AddRef else Idle)
  }

  /** A begin inside an open section only counts it. */
  ghost predicate BeginNested(s: State, s': State, t: nat) {
    && Live(s, t) && s.pcs[t] == Idle && s.recs[t].active > 0
    && var r := s.recs[t].(active := s.recs[t].active + 1);
       s' == (if r.sectioned then Put(s, t, r, AddRef)
              else Put(s, t, r.(plain := r.plain + {|s.sections|}), Idle)
                   .(sections := s.sections + [Section(t, r.epoch)]))
  }

  /** `_ck_epoch_addref`: the load of the global epoch, then updates of fields only the owner reads. */
  ghost predicate AddsRef(s: State, s': State, t: nat) {
    && Live(s, t) && s.pcs[t] == AddRef && |s.recs[t].bucket| == |s.recs[t].held| == 2
    && var r := s.recs[t];
       var i := s.global % 2;
       var ref := r.bucket[i];
       var ref' := Bucket(if ref.count == 0 then s.global else ref.epoch, ref.count + 1);
       s' == Put(s, t, r.(bucket := r.bucket[i := ref'], held := r.held[i := r.held[i] + {|s.sections|}]), Idle)
             .(sections := s.sections + [Section(t, s.global)])
  }

  /** The release store of `ck_epoch_end`; any open section of the record may be the one closed. */
  ghost predicate EndPlain(s: State, s': State, t: nat, sid: SectionId) {
    && Live(s, t) && s.pcs[t] == Idle && sid in s.recs[t].plain && s.recs[t].active > 0
    && s' == Put(s, t, s.recs[t].(active := s.recs[t].active - 1, plain := s.recs[t].plain - {sid}), Idle)
  }

  ghost predicate EndSection(s: State, s': State, t: nat, i: nat, sid: SectionId) {
    && Live(s, t) && s.pcs[t] == Idle && s.recs[t].active > 0
    && i < |s.recs[t].held| == 2 && sid in s.recs[t].held[i]
    && s' == Put(s, t, s.recs[t].(active := s.recs[t].active - 1,
                                  held := s.recs[t].held[i := s.recs[t].held[i] - {sid}]), DelRef(i))
  }

  /** `_ck_epoch_delref`: when the bucket empties and the other one is newer, publish the newer epoch. */
  ghost predicate DropsRef(s: State, s': State, t: nat) {
    && Live(s, t) && s.pcs[t].DelRef? && s.pcs[t].i < |s.recs[t].bucket| == 2
    && s.recs[t].bucket[s.pcs[t].i].count > 0
    && var r := s.recs[t];
       var i := s.pcs[t].i;
       var current := r.bucket[i].(count := r.bucket[i].count - 1);
       var other := r.bucket[(i + 1) % 2];
       var r' := r.(bucket := r.bucket[i := current]);
       s' == Put(s, t, if current.count == 0 && other.count > 0 && current.epoch < other.epoch
                       then r'.(epoch := other.epoch) else r', Idle)
  }

  // ----- deferral

  /** The client makes an object unreachable. */
  ghost predicate Unlink(s: State, s': State, o: ObjectId) {
    && o !in s.objs
    && s' == s.(objs := s.objs[o := Unlinked(AllOpen(s))])
  }

  /** `ck_epoch_call`, on the caller's own record, after the object was unlinked. */
  ghost predicate CallLoads(s: State, s': State, t: nat, o: ObjectId) {
    && Live(s, t) && s.pcs[t] == Idle && o in s.objs && s.objs[o].Unlinked?
    && s' == Go(s, t, CallPush(o, s.global)).(objs := s.objs[o := Calling(t, s.objs[o].guards)])
  }

  ghost predicate CallPushes(s: State, s': State, t: nat) {
    && Live(s, t) && s.pcs[t].CallPush? && s.pcs[t].obj in s.objs && |s.recs[t].pending| == LISTS
    && var r := s.recs[t];
       var o := s.pcs[t].obj;
       var k := s.pcs[t].e % LISTS;
       s' == Put(s, t, r.(pending := r.pending[k := [o] + r.pending[k]]), Idle)
             .(objs := s.objs[o := Pending(t, s.pcs[t].e, s.objs[o].guards)])
  }

  /** `ck_epoch_dispatch` on list k: from here on the callbacks run, or wait on the caller's list. */
  ghost predicate Dispatch(s: State, s': State, t: nat, k: nat, pc: Pc) {
    && t < |s.recs| == |s.pcs| && k < |s.recs[t].pending| == LISTS
    && var r := s.recs[t];
       s' == Put(s, t, r.(pending := r.pending[k := []]), pc)
             .(objs := map o | o in s.objs ::
                         if o in r.pending[k] then Done(s.objs[o].guards) else s.objs[o])
  }

  // ----- polling and synchronization

  /** A scan called with no record to resume at. */
  function NewScan(op: Op, delta: nat, open: set<SectionId>): Pc {
    Scan(Walk(op, delta, -1, LookHead, false, open))
  }

  /** It starts at the newest record. */
  ghost predicate ScanHead(s: State, s': State, t: nat) {
    && Live(s, t) && s.pcs[t].Scan? && s.pcs[t].walk.look == LookHead
    && s' == Go(s, t, Scan(s.pcs[t].walk.(at := |s.recs| - 1, look := LookState)))
  }

  ghost predicate PollLoads(s: State, s': State, t: nat) {
    && Live(s, t) && s.pcs[t] == Idle
    && s' == Go(s, t, PollPop(s.global, AllOpen(s)))
  }

  /** Dispatches the callbacks of epoch - 2 and starts the scan. */
  ghost predicate PollPops(s: State, s': State, t: nat) {
    && Live(s, t) && s.pcs[t].PollPop?
    && var e := s.pcs[t].e;
       Dispatch(s, s', t, (e + LISTS - 2) % LISTS,
                NewScan(Poll(e), e, s.pcs[t].open))
  }

  ghost predicate SyncLoads(s: State, s': State, t: nat, barrier: bool) {
    && Live(s, t) && s.pcs[t] == Idle
    && s' == Go(s, t, NewScan(Sync(s.global, 0, barrier), s.global, AllOpen(s)))
  }

  /** The scan of thread t is about to make the load `look` on the record under its cursor. */
  ghost predicate Looking(s: State, t: nat, look: Look) {
    && Live(s, t) && s.pcs[t].Scan?
    && 0 <= s.pcs[t].walk.at < |s.recs| && s.pcs[t].walk.look == look
  }

  ghost predicate ScanState(s: State, s': State, t: nat) {
    && Looking(s, t, LookState)
    && var w := s.pcs[t].walk;
       s' == Go(s, t, Scan(if !s.recs[w.at].used then w.(at := w.at - 1) else w.(look := LookActive)))
  }

  ghost predicate ScanActive(s: State, s': State, t: nat) {
    && Looking(s, t, LookActive)
    && var w := s.pcs[t].walk;
       s' == Go(s, t, Scan(if s.recs[w.at].active == 0 then w.(at := w.at - 1, look := LookState)
                           else w.(look := LookEpoch, af := true)))
  }

  /** A record active in another epoch ends the scan: a poll gives up, a synchronize looks again. */
  ghost predicate ScanEpoch(s: State, s': State, t: nat) {
    && Looking(s, t, LookEpoch)
    && var w := s.pcs[t].walk;
       s' == Go(s, t, if s.recs[w.at].epoch == w.delta then Scan(w.(at := w.at - 1, look := LookState))
                      else if w.op.Poll? then Idle
                      else Reload(w.op, w.delta, w.at, w.open))
  }

  /** The end of a synchronize: return, or reclaim all four lists of the caller's record. */
  function Finish(op: Op, open: set<SectionId>): Pc
    requires op.Sync?
  {
    if op.barrier then Drain(0, open) else Idle
  }

  /** Same epoch: resume at the blocking record. Epoch moved: leave once the goal is met, else start over. */
  ghost predicate Reloads(s: State, s': State, t: nat) {
    && Live(s, t) && s.pcs[t].Reload? && s.pcs[t].op.Sync?
    && var pc := s.pcs[t];
       s' == Go(s, t, if s.global == pc.delta then Scan(Walk(pc.op, pc.delta, pc.at, LookState, true, pc.open))
                      else if s.global >= pc.op.e + GRACE then Finish(pc.op, pc.open)
                      else NewScan(pc.op, s.global, pc.open))
  }

  /** The scan returned NULL: nobody active, or everybody active has observed `delta`. */
  ghost predicate ScanDone(s: State, s': State, t: nat) {
    && Live(s, t) && s.pcs[t].Scan? && s.pcs[t].walk.at < 0 && s.pcs[t].walk.look != LookHead
    && var w := s.pcs[t].walk;
       s' == (if w.af then Go(s, t, Advance(w.op, w.delta, w.open))
              else if w.op.Sync? then Go(s, t, Finish(w.op, w.open))
              else Put(s, t, s.recs[t].(epoch := w.op.e), Drain(0, w.open)))
  }

  /** The compare-and-swap of the global epoch. */
  ghost predicate Advances(s: State, s': State, t: nat) {
    && Live(s, t) && s.pcs[t].Advance?
    && var pc := s.pcs[t];
       var global' := if s.global == pc.delta then pc.delta + 1 else s.global;
       s' == Go(s, t, if pc.op.Poll? then PollLast(pc.op.e, pc.open)
                      else if pc.op.round + 1 < GRACE - 1
                      then NewScan(pc.op.(round := pc.op.round + 1), global', pc.open)
                      else Finish(pc.op, pc.open)).(global := global')
  }

  /** Dispatches the callbacks of epoch - 1. */
  ghost predicate PollLasts(s: State, s': State, t: nat) {
    && Live(s, t) && s.pcs[t].PollLast?
    && Dispatch(s, s', t, (s.pcs[t].e + LISTS - 1) % LISTS, Idle)
  }

  /** Dispatches all four lists, one after the other. */
  ghost predicate Drains(s: State, s': State, t: nat) {
    && Live(s, t) && s.pcs[t].Drain? && s.pcs[t].k < LISTS
    && var k := s.pcs[t].k;
       Dispatch(s, s', t, k, if k + 1 < LISTS then Drain(k + 1, s.pcs[t].open) else Idle)
  }

  // ----- runs

  ghost predicate SectionStep(s: State, s': State, t: nat) {
    || BeginOuter(s, s', t) || BeginLoads(s, s', t) || BeginStores(s, s', t)
    || BeginNested(s, s', t) || AddsRef(s, s', t) || DropsRef(s, s', t)
    || (exists sid :: EndPlain(s, s', t, sid))
    || (exists i, sid :: EndSection(s, s', t, i, sid))
  }

  ghost predicate RegistryStep(s: State, s': State, t: nat) {
    || Unregister(s, s', t) || MarkFree(s, s', t)
    || (exists sectioned :: Recycle(s, s', t, sectioned))
  }

  ghost predicate DeferStep(s: State, s': State, t: nat) {
    || (exists o :: CallLoads(s, s', t, o)) || CallPushes(s, s', t)
    || PollPops(s, s', t) || PollLasts(s, s', t) || Drains(s, s', t)
  }

  ghost predicate ScanStep(s: State, s': State, t: nat) {
    || PollLoads(s, s', t) || (exists barrier :: SyncLoads(s, s', t, barrier))
    || ScanHead(s, s', t) || ScanState(s, s', t) || ScanActive(s, s', t) || ScanEpoch(s, s', t)
    || Reloads(s, s', t) || ScanDone(s, s', t) || Advances(s, s', t)
  }

  ghost predicate Step(s: State, s': State, t: nat) {
    SectionStep(s, s', t) || RegistryStep(s, s', t) || DeferStep(s, s', t) || ScanStep(s, s', t)
  }

  ghost predicate Next(s: State, s': State) {
    || (exists t :: Step(s, s', t))
    || (exists sectioned :: Register(s, s', sectioned))
    || (exists o :: Unlink(s, s', o))
  }

  ghost predicate StepAt(run: seq<State>, i: nat)
    requires i + 1 < |run|
  {
    Next(run[i], run[i + 1])
  }

  ghost predicate IsRun(run: seq<State>) {
    |run| > 0 && Init(run[0]) && forall i: nat | i + 1 < |run| :: StepAt(run, i)
  }
}
