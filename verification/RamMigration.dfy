/**
  Live migration of RAM: the sender, the guest that keeps writing, and the receiver, as one
  system of steps; and the proof that every complete run leaves the receiver with the sender's RAM.
 */
module RamMigration {
  import opened Base
  import opened RamList
  import opened RamStream
  import opened RamLoad
  import opened RamReplay
  import opened RamSave

  /** The sender, its finished sections and the section being written. */
  datatype System = System(s: Saver, sections: seq<seq<Octet>>, open: seq<Octet>)

  // ---- Steps ------------------------------------------------------------------------------------------

  /** The guest writes a page; the write is either marked dirty at once or left in the log. */
  ghost predicate GuestStep(blocks: seq<RamBlock>, x: System, y: System) {
    exists p: Pos, page: Page, logged: bool ::
      ValidPos(blocks, p) && y == x.(s := GuestWrote(x.s, Addr(blocks, p), page, logged))
  }

  /** cpu_physical_sync_dirty_bitmap */
  ghost predicate SyncStep(x: System, y: System) {
    y == x.(s := Synced(x.s))
  }

  /** ram_save_block sends a page. */
  ghost predicate SendStep(blocks: seq<RamBlock>, x: System, y: System, p: Pos) {
    && ValidPos(blocks, p) && |blocks[p.b].idstr| < 256 && Addr(blocks, p) in x.s.mem
    && Addr(blocks, p) in x.s.dirty
    && y == x.(s := Sent(blocks, x.s, p), open := x.open + RecordOf(blocks, x.s, p))
  }

  /** ram_save_live ends its section. */
  ghost predicate EosStep(x: System, y: System) {
    y == x.(sections := x.sections + [x.open + EosRecord()], open := [])
  }

  ghost predicate Step(blocks: seq<RamBlock>, x: System, y: System) {
    GuestStep(blocks, x, y) || SyncStep(x, y) || (exists p :: SendStep(blocks, x, y, p)) || EosStep(x, y)
  }

  /** Any number of steps. */
  ghost predicate Run(blocks: seq<RamBlock>, run: seq<System>) {
    && |run| > 0
    && forall k :: 0 <= k < |run| - 1 ==> Step(blocks, run[k], run[k + 1])
  }

  /** The system after the opening of stage 1. */
  ghost predicate Start(blocks: seq<RamBlock>, x: System) {
    && ValidSaver(blocks, x.s) && x.s.last.None?
    && x.sections == [] && x.open == SizesRecord(blocks)
  }

  /** The system after stage 3: nothing left to send, and the last section finished. */
  ghost predicate Finished(blocks: seq<RamBlock>, x: System) {
    && x.open == []
    && forall p :: ValidPos(blocks, p) ==> Addr(blocks, p) !in x.s.dirty + x.s.log
  }

  // ---- The receiver's side ------------------------------------------------------------------------------

  /** Each section goes through ram_load and is consumed whole. */
  function LoadAll(dst: seq<RamBlock>, st: Loader, sections: seq<seq<Octet>>): Option<Loader> {
    if sections == [] then Some(st)
    else match LoadAll(dst, st, sections[..|sections| - 1])
      case None => None
      case Some(st1) =>
        match LoadSection(dst, st1, sections[|sections| - 1])
        case Failed(_) => None
        case Loaded(st2, rest) => if rest == [] then Some(st2) else None
  }

  /** Reading `open` takes the receiver from st to d, whatever follows. */
  ghost predicate Tracks(dst: seq<RamBlock>, st: Loader, open: seq<Octet>, d: Loader) {
    forall rest: seq<Octet> :: LoadSection(dst, st, open + rest) == LoadSection(dst, d, rest)
  }

  /** The receiver's place for a page of the sender. */
  function Target(dst: seq<RamBlock>, at: seq<nat>, p: Pos): nat
    requires p.b < |at| && at[p.b] < |dst|
  {
    Addr(dst, Pos(at[p.b], p.i))
  }

  /** The receiver has every page that is not waiting to be sent, and remembers the sender's block. */
  ghost predicate Agree(src: seq<RamBlock>, dst: seq<RamBlock>, at: seq<nat>, s: Saver, d: Loader)
    requires SameBlocks(src, dst, at)
  {
    && (s.last.Some? && s.last.value.b < |at| ==> d.cur == Some(at[s.last.value.b]))
    && (forall p :: ValidPos(src, p) && Addr(src, p) !in s.dirty + s.log && Addr(src, p) in s.mem ==>
                      Target(dst, at, p) in d.mem && d.mem[Target(dst, at, p)] == s.mem[Addr(src, p)])
  }

  /** The invariant: d is where the receiver stands once it has read all that was written. */
  ghost predicate Invariant(src: seq<RamBlock>, dst: seq<RamBlock>, at: seq<nat>, d0: Loader, x: System, d: Loader)
    requires SameBlocks(src, dst, at)
  {
    && ValidSaver(src, x.s)
    && LoadAll(dst, d0, x.sections).Some?
    && Tracks(dst, LoadAll(dst, d0, x.sections).value, x.open, d)
    && Agree(src, dst, at, x.s, d)
  }

  lemma TargetInjective(src: seq<RamBlock>, dst: seq<RamBlock>, at: seq<nat>, p: Pos, q: Pos)
    requires ValidList(src) && ValidList(dst) && SameBlocks(src, dst, at)
    requires ValidPos(src, p) && ValidPos(src, q) && Target(dst, at, p) == Target(dst, at, q)
    ensures p == q
  {
    AddrInjective(dst, Pos(at[p.b], p.i), Pos(at[q.b], q.i));
    assert src[p.b].idstr == src[q.b].idstr;
  }

  lemma {:induction false} BlockFitsTotal(blocks: seq<RamBlock>, b: nat)
    requires b < |blocks|
    ensures blocks[b].Length() <= TotalBytes(blocks)
  {
    if b > 0 {
      BlockFitsTotal(blocks[1..], b - 1);
    }
  }

  lemma TracksPage(dst: seq<RamBlock>, st: Loader, open: seq<Octet>, d: Loader, b: nat, cont: bool, idstr: seq<Octet>,
                   offset: nat, page: Page)
    requires Tracks(dst, st, open, d)
    requires |idstr| < 256 && Knows(dst, idstr, b) && offset % PAGE == 0 && offset < dst[b].Length() < TWO64
    requires cont ==> d.cur == Some(b)
    ensures Tracks(dst, st, open + PageRecord(cont, idstr, offset, page), Replayed(dst, d, b, offset, page))
  {
    hide LoadSection, PageRecord;
    var record := PageRecord(cont, idstr, offset, page);
    forall rest: seq<Octet>
      ensures LoadSection(dst, st, open + record + rest) == LoadSection(dst, Replayed(dst, d, b, offset, page), rest)
    {
      assert open + record + rest == open + (record + rest);
      ReplayPage(dst, d, b, cont, idstr, offset, page, rest);
    }
  }

  lemma AgreeAfterSend(src: seq<RamBlock>, dst: seq<RamBlock>, at: seq<nat>, s: Saver, d: Loader, p: Pos)
    requires ValidList(src) && ValidList(dst) && SameBlocks(src, dst, at)
    requires Agree(src, dst, at, s, d) && ValidPos(src, p) && Addr(src, p) in s.mem
    ensures Agree(src, dst, at, Sent(src, s, p), Replayed(dst, d, at[p.b], PAGE * p.i, s.mem[Addr(src, p)]))
  {
    var t := Sent(src, s, p);
    var e := Replayed(dst, d, at[p.b], PAGE * p.i, s.mem[Addr(src, p)]);
    forall q | ValidPos(src, q) && Addr(src, q) !in t.dirty + t.log && Addr(src, q) in t.mem
      ensures Target(dst, at, q) in e.mem && e.mem[Target(dst, at, q)] == t.mem[Addr(src, q)]
    {
      if Target(dst, at, q) == Target(dst, at, p) {
        TargetInjective(src, dst, at, p, q);
      } else if Addr(src, q) == Addr(src, p) {
        AddrInjective(src, p, q);
      }
    }
  }

  lemma SendKeeps(src: seq<RamBlock>, dst: seq<RamBlock>, at: seq<nat>, d0: Loader, x: System, d: Loader, y: System,
                  p: Pos)
    returns (e: Loader)
    requires ValidList(dst) && SameBlocks(src, dst, at)
    requires Invariant(src, dst, at, d0, x, d) && SendStep(src, x, y, p)
    ensures Invariant(src, dst, at, d0, y, e)
  {
    hide LoadSection, LoadAll, PageRecord, Tracks, Agree, Knows;
    Known(src, dst, at, p.b);
    var b, page := at[p.b], x.s.mem[Addr(src, p)];
    var cont := x.s.last.Some? && x.s.last.value.b == p.b;
    e := Replayed(dst, d, b, PAGE * p.i, page);
    BlockFitsTotal(dst, b);
    AgreeAfterSend(src, dst, at, x.s, d, p);
    Remembered(src, dst, at, x.s, d);
    TracksPage(dst, LoadAll(dst, d0, x.sections).value, x.open, d, b, cont, src[p.b].idstr, PAGE * p.i, page);
  }

  lemma Known(src: seq<RamBlock>, dst: seq<RamBlock>, at: seq<nat>, b: nat)
    requires SameBlocks(src, dst, at) && b < |src|
    ensures at[b] < |dst| && Knows(dst, src[b].idstr, at[b])
  {}

  lemma Remembered(src: seq<RamBlock>, dst: seq<RamBlock>, at: seq<nat>, s: Saver, d: Loader)
    requires SameBlocks(src, dst, at) && Agree(src, dst, at, s, d)
    ensures s.last.Some? && s.last.value.b < |at| ==> d.cur == Some(at[s.last.value.b])
  {}

  lemma EosKeeps(src: seq<RamBlock>, dst: seq<RamBlock>, at: seq<nat>, d0: Loader, x: System, d: Loader, y: System)
    requires SameBlocks(src, dst, at) && Invariant(src, dst, at, d0, x, d) && EosStep(x, y)
    ensures Invariant(src, dst, at, d0, y, d)
  {
    hide LoadSection, EosRecord, Agree;
    var st := LoadAll(dst, d0, x.sections).value;
    ReplayEos(dst, d, []);
    assert EosRecord() + [] == EosRecord();
    assert LoadSection(dst, st, x.open + EosRecord()) == Loaded(d, []);
    assert y.sections[..|y.sections| - 1] == x.sections;
    assert LoadAll(dst, d0, y.sections) == Some(d);
    assert forall rest: seq<Octet> :: [] + rest == rest;
  }

  /** Every step keeps the invariant. */
  lemma StepKeeps(src: seq<RamBlock>, dst: seq<RamBlock>, at: seq<nat>, d0: Loader, x: System, d: Loader, y: System)
    returns (e: Loader)
    requires ValidList(dst) && SameBlocks(src, dst, at)
    requires Invariant(src, dst, at, d0, x, d) && Step(src, x, y)
    ensures Invariant(src, dst, at, d0, y, e)
  {
    hide LoadAll, Tracks;
    if EosStep(x, y) {
      EosKeeps(src, dst, at, d0, x, d, y);
      e := d;
    } else if p :| SendStep(src, x, y, p) {
      e := SendKeeps(src, dst, at, d0, x, d, y, p);
    } else if SyncStep(x, y) {
      e := d;
    } else {
      var p: Pos, page: Page, logged: bool :|
        ValidPos(src, p) && y == x.(s := GuestWrote(x.s, Addr(src, p), page, logged));
      e := d;
    }
  }

  lemma StartHolds(src: seq<RamBlock>, dst: seq<RamBlock>, at: seq<nat>, d0: Loader, x: System)
    requires SameBlocks(src, dst, at) && Start(src, x)
    ensures Invariant(src, dst, at, d0, x, d0)
  {
    hide LoadSection, SizesRecord;
    forall rest: seq<Octet>
      ensures LoadSection(dst, d0, x.open + rest) == LoadSection(dst, d0, rest)
    {
      ReplaySizes(src, dst, at, d0, rest);
    }
  }

  lemma {:induction false} RunKeeps(src: seq<RamBlock>, dst: seq<RamBlock>, at: seq<nat>, d0: Loader, run: seq<System>)
    returns (d: Loader)
    requires ValidList(dst) && SameBlocks(src, dst, at)
    requires Run(src, run) && Start(src, run[0])
    ensures Invariant(src, dst, at, d0, run[|run| - 1], d)
    decreases |run|
  {
    hide Step, Invariant;
    if |run| == 1 {
      StartHolds(src, dst, at, d0, run[0]);
      d := d0;
    } else {
      var n := |run| - 1;
      d := RunKeeps(src, dst, at, d0, run[..n]);
      d := StepKeeps(src, dst, at, d0, run[n - 1], d, run[n]);
    }
  }

  /** Receiver and sender hold the same RAM. */
  ghost predicate SameRam(src: seq<RamBlock>, dst: seq<RamBlock>, at: seq<nat>, mem: map<nat, Page>,
                          copy: map<nat, Page>)
    requires SameBlocks(src, dst, at)
  {
    forall p :: ValidPos(src, p) ==>
      && Addr(src, p) in mem && Target(dst, at, p) in copy
      && copy[Target(dst, at, p)] == mem[Addr(src, p)]
  }

  /**
    Every run from the opening of stage 1 to the end of stage 3, whatever the guest writes in between
    and wherever sections end, gives sections that the receiver accepts and that leave it with the
    sender's final RAM.
   */
  lemma MigrationIsExact(src: seq<RamBlock>, dst: seq<RamBlock>, at: seq<nat>, d0: Loader, run: seq<System>)
    requires ValidList(dst) && SameBlocks(src, dst, at)
    requires Run(src, run) && Start(src, run[0]) && Finished(src, run[|run| - 1])
    ensures var x := run[|run| - 1];
            && LoadAll(dst, d0, x.sections).Some?
            && SameRam(src, dst, at, x.s.mem, LoadAll(dst, d0, x.sections).value.mem)
  {
    hide LoadAll, Step;
    var x := run[|run| - 1];
    var d := RunKeeps(src, dst, at, d0, run);
    var st := LoadAll(dst, d0, x.sections).value;
    TracksNothing(dst, st, d);
    forall p | ValidPos(src, p)
      ensures Addr(src, p) in x.s.mem && Target(dst, at, p) in st.mem
      ensures st.mem[Target(dst, at, p)] == x.s.mem[Addr(src, p)]
    {
      assert Addr(src, p) !in x.s.dirty + x.s.log;
    }
  }

  lemma TracksNothing(dst: seq<RamBlock>, st: Loader, d: Loader)
    requires Tracks(dst, st, [], d)
    ensures st == d
  {
    hide LoadSection, EosRecord;
    ReplayEos(dst, st, []);
    ReplayEos(dst, d, []);
    assert [] + (EosRecord() + []) == EosRecord() + [];
  }

  // ---- ram_save_live -----------------------------------------------------------------------------------

  ghost function SystemOf(saver: RamSaver): System
    reads saver
  {
    System(saver.State(), saver.sections, saver.open)
  }

  /** The number of dirty pages. */
  ghost function Remaining(saver: RamSaver): nat
    reads saver`dirty
  {
    |saver.dirty * RamAddrs(saver.blocks)|
  }

  lemma RunExtend(blocks: seq<RamBlock>, run: seq<System>, y: System)
    requires Run(blocks, run) && Step(blocks, run[|run| - 1], y)
    ensures Run(blocks, run + [y])
  {}

  /** One call of ram_save_block within a run. */
  method SaveBlockInRun(saver: RamSaver, ghost run: seq<System>) returns (sent: nat, ghost run': seq<System>)
    requires saver.Valid() && Run(saver.blocks, run) && run[|run| - 1] == SystemOf(saver)
    modifies saver
    ensures saver.Valid() && saver.mem == old(saver.mem) && saver.log == old(saver.log)
    ensures saver.sections == old(saver.sections)
    ensures Run(saver.blocks, run') && run'[0] == run[0] && run'[|run'| - 1] == SystemOf(saver)
    ensures sent == 0 <==> old(NoneDirty(saver.blocks, saver.State()))
    ensures sent == 0 ==> SystemOf(saver) == old(SystemOf(saver))
    ensures Remaining(saver) == old(Remaining(saver)) - if sent == 0 then 0 else 1
    ensures saver.bytesTransferred == old(saver.bytesTransferred) + sent
  {
    hide RecordOf, RamAddrs, FirstDirty, GuestStep;
    ghost var x := SystemOf(saver);
    ghost var p;
    sent, p := saver.SaveBlock();
    run' := run;
    if sent != 0 {
      assert ValidPos(saver.blocks, p) && Addr(saver.blocks, p) in x.s.dirty by { FirstIsDirty(saver.blocks, x.s, p); }
      assert SendStep(saver.blocks, x, SystemOf(saver), p);
      SentCount(saver.blocks, x.s, p);
      RunExtend(saver.blocks, run, SystemOf(saver));
      run' := run + [SystemOf(saver)];
    }
    saver.bytesTransferred := saver.bytesTransferred + sent;
  }

  lemma FirstIsDirty(blocks: seq<RamBlock>, s: Saver, p: Pos)
    requires FirstDirty(blocks, s, p)
    ensures ValidPos(blocks, p) && Addr(blocks, p) in s.dirty
  {}

  /** The loop under the rate limit: it sends pages until `budget` are sent or none is dirty. */
  method SaveUnderLimit(saver: RamSaver, budget: nat, ghost run: seq<System>)
    returns (pages: nat, ghost run': seq<System>)
    requires saver.Valid() && Run(saver.blocks, run) && run[|run| - 1] == SystemOf(saver)
    modifies saver
    ensures saver.Valid() && saver.mem == old(saver.mem) && saver.log == old(saver.log)
    ensures saver.sections == old(saver.sections)
    ensures Run(saver.blocks, run') && run'[0] == run[0] && run'[|run'| - 1] == SystemOf(saver)
    ensures pages == Min(budget, old(Remaining(saver))) && Remaining(saver) == old(Remaining(saver)) - pages
  {
    hide Step, NoneDirty, RamAddrs;
    run' := run;
    pages := 0;
    while pages < budget
      invariant saver.Valid() && saver.mem == old(saver.mem) && saver.log == old(saver.log)
      invariant saver.sections == old(saver.sections)
      invariant Run(saver.blocks, run')
      invariant run'[0] == run[0] && run'[|run'| - 1] == SystemOf(saver)
      invariant pages <= budget && pages + Remaining(saver) == old(Remaining(saver))
    {
      var sent;
      sent, run' := SaveBlockInRun(saver, run');
      if sent == 0 {
        CleanCount(saver.blocks, saver.State());
        break;
      }
      pages := pages + 1;
    }
  }

  /** The loop of stage 3: it sends exactly as many pages as were dirty, and leaves none dirty. */
  method Drain(saver: RamSaver, ghost run: seq<System>) returns (pages: nat, ghost run': seq<System>)
    requires saver.Valid() && Run(saver.blocks, run) && run[|run| - 1] == SystemOf(saver)
    modifies saver
    ensures saver.Valid() && saver.mem == old(saver.mem) && saver.log == old(saver.log)
    ensures saver.sections == old(saver.sections)
    ensures Run(saver.blocks, run') && run'[0] == run[0] && run'[|run'| - 1] == SystemOf(saver)
    ensures NoneDirty(saver.blocks, saver.State())
    ensures pages == old(Remaining(saver)) && Remaining(saver) == 0
  {
    hide Step, NoneDirty, RamAddrs;
    run' := run;
    pages := 0;
    while true
      invariant saver.Valid() && saver.mem == old(saver.mem) && saver.log == old(saver.log)
      invariant saver.sections == old(saver.sections)
      invariant Run(saver.blocks, run')
      invariant run'[0] == run[0] && run'[|run'| - 1] == SystemOf(saver)
      invariant pages + Remaining(saver) == old(Remaining(saver))
      decreases Remaining(saver)
    {
      var sent;
      sent, run' := SaveBlockInRun(saver, run');
      if sent == 0 {
        CleanCount(saver.blocks, saver.State());
        break;
      }
      pages := pages + 1;
    }
  }

  /** No dirty page means a count of 0. */
  lemma CleanCount(blocks: seq<RamBlock>, s: Saver)
    requires NoneDirty(blocks, s)
    ensures |s.dirty * RamAddrs(blocks)| == 0
  {
    forall a | a in s.dirty * RamAddrs(blocks)
      ensures false
    {
      RamAddrsMember(blocks, a);
    }
  }

  /** The end of every call: the EOS record closes the section. */
  method EndSection(saver: RamSaver, ghost run: seq<System>) returns (ghost run': seq<System>)
    requires saver.Valid() && Run(saver.blocks, run) && run[|run| - 1] == SystemOf(saver)
    modifies saver`open, saver`sections
    ensures saver.open == [] && saver.sections == old(saver.sections) + [old(saver.open) + EosRecord()]
    ensures Run(saver.blocks, run') && run'[0] == run[0] && run'[|run'| - 1] == SystemOf(saver)
  {
    hide GuestStep, SyncStep, SendStep;
    ghost var x := SystemOf(saver);
    saver.sections := saver.sections + [saver.open + EosRecord()];
    saver.open := [];
    assert EosStep(x, SystemOf(saver));
    RunExtend(saver.blocks, run, SystemOf(saver));
    run' := run + [SystemOf(saver)];
  }

  /**
    ram_save_live for stages 1 to 3, with `budget` pages before the rate limit.  `run` holds the
    steps of the call; stage 1 starts a run and stage 3 finishes one.  `pages` are sent: all pages of
    RAM are due in stage 1, and in stage 2 those that were dirty or written since the last call.
   */
  method SaveLive(saver: RamSaver, stage: int, budget: nat) returns (pages: nat, ghost run: seq<System>)
    requires 1 <= stage <= 3
    requires stage == 1 ==>
               && ValidList(saver.blocks) && saver.sections == [] && saver.open == []
               && forall p :: ValidPos(saver.blocks, p) ==> Addr(saver.blocks, p) in saver.mem
    requires stage != 1 ==> saver.Valid()
    modifies saver
    ensures saver.Valid() && saver.mem == old(saver.mem) && saver.open == [] && saver.log == {}
    ensures Run(saver.blocks, run) && run[|run| - 1] == SystemOf(saver)
    ensures stage == 1 ==> Start(saver.blocks, run[0])
    ensures stage != 1 ==> run[0] == old(SystemOf(saver))
    ensures stage == 3 ==> Finished(saver.blocks, SystemOf(saver))
    ensures var due := if stage == 1 then |RamAddrs(saver.blocks)|
                       else old(|(saver.dirty + saver.log) * RamAddrs(saver.blocks)|);
            pages == (if stage == 3 then due else Min(budget, due)) && Remaining(saver) == due - pages
    ensures |saver.sections| == |old(saver.sections)| + 1 && old(saver.sections) <= saver.sections
  {
    hide Step, ValidSaver, SizesRecord, EosRecord;
    if stage == 1 {
      saver.BeginStage1();
      run := [SystemOf(saver)];
      assert saver.dirty * RamAddrs(saver.blocks) == RamAddrs(saver.blocks);
    } else {
      run := SyncInRun(saver, [SystemOf(saver)]);
    }
    pages, run := SaveUnderLimit(saver, budget, run);
    if stage == 3 {
      var rest;
      rest, run := Drain(saver, run);
      pages := pages + rest;
    }
    run := EndSection(saver, run);
  }

  /** cpu_physical_sync_dirty_bitmap at the start of a call. */
  method SyncInRun(saver: RamSaver, ghost run: seq<System>) returns (ghost run': seq<System>)
    requires saver.Valid() && Run(saver.blocks, run) && run[|run| - 1] == SystemOf(saver)
    modifies saver`dirty, saver`log
    ensures saver.Valid() && saver.log == {} && saver.dirty == old(saver.dirty + saver.log)
    ensures Run(saver.blocks, run') && run'[0] == run[0] && run'[|run'| - 1] == SystemOf(saver)
  {
    hide GuestStep, EosStep, SendStep;
    ghost var x := SystemOf(saver);
    saver.dirty, saver.log := saver.dirty + saver.log, {};
    assert SyncStep(x, SystemOf(saver));
    RunExtend(saver.blocks, run, SystemOf(saver));
    run' := run + [SystemOf(saver)];
  }

  // ---- A whole migration ---------------------------------------------------------------------------------

  datatype GuestWrite = GuestWrite(p: Pos, page: Page, logged: bool)

  ghost predicate InRam(blocks: seq<RamBlock>, writes: seq<GuestWrite>) {
    forall k :: 0 <= k < |writes| ==> ValidPos(blocks, writes[k].p)
  }

  /** RAM after the writes. */
  ghost function Wrote(blocks: seq<RamBlock>, mem: map<nat, Page>, writes: seq<GuestWrite>): map<nat, Page>
    requires InRam(blocks, writes)
  {
    if writes == [] then mem
    else
      var n := |writes| - 1;
      Wrote(blocks, mem, writes[..n])[Addr(blocks, writes[n].p) := writes[n].page]
  }

  /** RAM after all the bursts of writes. */
  ghost function WroteAll(blocks: seq<RamBlock>, mem: map<nat, Page>, bursts: seq<seq<GuestWrite>>): map<nat, Page>
    requires forall n :: 0 <= n < |bursts| ==> InRam(blocks, bursts[n])
  {
    if bursts == [] then mem
    else
      var n := |bursts| - 1;
      Wrote(blocks, WroteAll(blocks, mem, bursts[..n]), bursts[n])
  }

  /** One write of the guest: the page, and its mark in the log or in the dirty set. */
  method WriteInRun(saver: RamSaver, w: GuestWrite, ghost run: seq<System>) returns (ghost run': seq<System>)
    requires saver.Valid() && Run(saver.blocks, run) && run[|run| - 1] == SystemOf(saver)
    requires ValidPos(saver.blocks, w.p)
    modifies saver`mem, saver`log, saver`dirty
    ensures saver.Valid() && saver.State() == GuestWrote(old(saver.State()), Addr(saver.blocks, w.p), w.page, w.logged)
    ensures Run(saver.blocks, run') && run'[0] == run[0] && run'[|run'| - 1] == SystemOf(saver)
  {
    hide SyncStep, EosStep, SendStep, ValidList;
    ghost var x := SystemOf(saver);
    var a := Addr(saver.blocks, w.p);
    saver.mem := saver.mem[a := w.page];
    if w.logged {
      saver.log := saver.log + {a};
    } else {
      saver.dirty := saver.dirty + {a};
    }
    assert SystemOf(saver) == x.(s := GuestWrote(x.s, a, w.page, w.logged));
    assert GuestStep(saver.blocks, x, SystemOf(saver));
    RunExtend(saver.blocks, run, SystemOf(saver));
    run' := run + [SystemOf(saver)];
  }

  /** The guest writes; each page written is in the log or the dirty set from then on. */
  method RunGuest(saver: RamSaver, writes: seq<GuestWrite>, ghost run: seq<System>) returns (ghost run': seq<System>)
    requires saver.Valid() && Run(saver.blocks, run) && run[|run| - 1] == SystemOf(saver)
    requires InRam(saver.blocks, writes)
    modifies saver`mem, saver`log, saver`dirty
    ensures saver.Valid() && saver.mem == Wrote(saver.blocks, old(saver.mem), writes)
    ensures old(saver.log) <= saver.log && old(saver.dirty) <= saver.dirty
    ensures forall k :: 0 <= k < |writes| ==>
              Addr(saver.blocks, writes[k].p) in if writes[k].logged then saver.log else saver.dirty
    ensures Run(saver.blocks, run') && run'[0] == run[0] && run'[|run'| - 1] == SystemOf(saver)
  {
    hide Step, ValidList, ValidSaver;
    run' := run;
    var k := 0;
    while k < |writes|
      invariant k <= |writes| && saver.Valid() && saver.mem == Wrote(saver.blocks, old(saver.mem), writes[..k])
      invariant old(saver.log) <= saver.log && old(saver.dirty) <= saver.dirty
      invariant forall j :: 0 <= j < k ==>
                  Addr(saver.blocks, writes[j].p) in if writes[j].logged then saver.log else saver.dirty
      invariant Run(saver.blocks, run') && run'[0] == run[0] && run'[|run'| - 1] == SystemOf(saver)
    {
      run' := WriteInRun(saver, writes[k], run');
      assert writes[..k + 1][..k] == writes[..k];
      k := k + 1;
    }
    assert writes[..k] == writes;
  }

  lemma RunJoin(blocks: seq<RamBlock>, first: seq<System>, second: seq<System>)
    requires Run(blocks, first) && Run(blocks, second) && first[|first| - 1] == second[0]
    ensures Run(blocks, first + second[1..])
    ensures var run := first + second[1..]; run[0] == first[0] && run[|run| - 1] == second[|second| - 1]
  {
    hide Step;
    var run := first + second[1..];
    forall k | 0 <= k < |run| - 1
      ensures Step(blocks, run[k], run[k + 1])
    {
      if k >= |first| - 1 {
        var j := k - (|first| - 1);
        assert run[k] == second[j] && run[k + 1] == second[j + 1];
      }
    }
  }

  /**
    Stage 1, a stage 2 call after each burst of guest writes, a last burst, and stage 3; then every
    section goes through ram_load.  Whatever the guest did, the receiver ends with the sender's RAM.
   */
  method Migrate(saver: RamSaver, loader: RamLoader, ghost at: seq<nat>, bursts: seq<seq<GuestWrite>>,
                 budgets: seq<nat>)
    returns (ok: bool)
    requires saver.sections == [] && saver.open == [] && ValidList(saver.blocks) && ValidList(loader.blocks)
    requires forall p :: ValidPos(saver.blocks, p) ==> Addr(saver.blocks, p) in saver.mem
    requires SameBlocks(saver.blocks, loader.blocks, at)
    requires |budgets| == |bursts| + 1 && |bursts| > 0
    requires forall n :: 0 <= n < |bursts| ==> InRam(saver.blocks, bursts[n])
    modifies saver, loader
    ensures ok && SameRam(saver.blocks, loader.blocks, at, saver.mem, loader.mem)
    ensures saver.mem == WroteAll(saver.blocks, old(saver.mem), bursts)
  {
    hide Step, ValidSaver, ValidList, SameBlocks, SameRam, InRam, Wrote;
    ghost var d0 := loader.State();
    var pages;
    ghost var run, more;
    pages, run := SaveLive(saver, 1, budgets[0]);
    var n := 0;
    while n < |bursts|
      invariant n <= |bursts| && saver.Valid() && saver.open == [] && loader.State() == d0
      invariant Run(saver.blocks, run) && Start(saver.blocks, run[0]) && run[|run| - 1] == SystemOf(saver)
      invariant n == |bursts| ==> Finished(saver.blocks, SystemOf(saver))
      invariant saver.mem == WroteAll(saver.blocks, old(saver.mem), bursts[..n])
    {
      assert bursts[..n + 1][..n] == bursts[..n];
      run := RunGuest(saver, bursts[n], run);
      pages, more := SaveLive(saver, if n + 1 < |bursts| then 2 else 3, budgets[n + 1]);
      RunJoin(saver.blocks, run, more);
      run := run + more[1..];
      n := n + 1;
    }
    assert bursts[..n] == bursts;
    MigrationIsExact(saver.blocks, loader.blocks, at, d0, run);
    ok := LoadSections(loader, saver.sections);
  }

  method LoadSections(loader: RamLoader, sections: seq<seq<Octet>>) returns (ok: bool)
    modifies loader
    ensures ok <==> LoadAll(loader.blocks, old(loader.State()), sections).Some?
    ensures ok ==> LoadAll(loader.blocks, old(loader.State()), sections) == Some(loader.State())
  {
    hide LoadSection;
    ghost var d0 := loader.State();
    var k := 0;
    while k < |sections|
      invariant k <= |sections|
      invariant LoadAll(loader.blocks, d0, sections[..k]) == Some(loader.State())
    {
      assert sections[..k + 1][..k] == sections[..k];
      var ret, rest := loader.Load(sections[k]);
      if ret != 0 || rest != [] {
        LoadAllStops(loader.blocks, d0, sections, k + 1);
        return false;
      }
      k := k + 1;
    }
    assert sections[..k] == sections;
    return true;
  }

  /** A section that is refused makes the whole load fail. */
  lemma {:induction false} LoadAllStops(dst: seq<RamBlock>, st: Loader, sections: seq<seq<Octet>>, k: nat)
    requires k <= |sections| && LoadAll(dst, st, sections[..k]).None?
    ensures LoadAll(dst, st, sections).None?
    decreases |sections| - k
  {
    hide LoadSection;
    if k < |sections| {
      assert sections[..k + 1][..k] == sections[..k];
      LoadAllStops(dst, st, sections, k + 1);
    } else {
      assert sections[..k] == sections;
    }
  }
}
