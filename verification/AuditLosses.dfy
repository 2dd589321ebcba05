/** Which steps lose a row, whatever the stamps and the file names: exactly these. */
module AuditLosses {
  import opened Outcomes
  import opened Tables
  import opened Audit
  import opened AuditSchedule
  import opened AuditGuarantees

  // ---------- What holds of the directory, whatever names are used ----------

  predicate WriteOneFile(run: Run, other: Run) {
    Writing(run.phase) && Writing(other.phase) && run.inode == other.inode
  }

  /** Names lead to different files; a file was created by a prune that opened it; a file that
      is still being written is no archive yet, nor ever once two prunes write it. */
  ghost predicate Sound(s: State) {
    && (forall f, g :: f in s.disk.dir && g in s.disk.dir && f != g ==> s.disk.dir[f] != s.disk.dir[g])
    && (forall f :: f in s.disk.dir ==> s.disk.dir[f] in s.disk.files)
    && (forall i :: i in s.disk.files ==>
      i in s.runs && !s.runs[i].phase.Began? && !s.runs[i].phase.Counted?)
    && (forall k :: k in s.runs && Writing(s.runs[k].phase) ==>
      s.runs[k].inode in s.disk.files && !Intact(s.disk.files[s.runs[k].inode]))
    && (forall j, k :: j in s.runs && k in s.runs && j != k && WriteOneFile(s.runs[j], s.runs[k]) ==>
      s.disk.files[s.runs[k].inode].mixed)
  }

  lemma OpenKeepsSound(s: State, k: nat, file: string)
    requires Sound(s) && k in s.runs && s.runs[k].phase.Counted?
    ensures Sound(OpenStep(s, k, s.runs[k], file))
  {
    var t := OpenStep(s, k, s.runs[k], file);
    var inode := t.runs[k].inode;
    forall j | j in t.runs && j != k && Writing(t.runs[j].phase) && t.runs[j].inode == inode
      ensures t.disk.files[inode].mixed
    {
      assert InUse(s, inode);
    }
  }

  lemma SyncKeepsSound(s: State, k: nat)
    requires Sound(s) && k in s.runs && s.runs[k].phase.Archived? && s.runs[k].inode in s.disk.files
    ensures Sound(SyncStep(s, k, s.runs[k]))
  {
  }

  lemma SpillKeepsSound(s: State, k: nat, n: nat)
    requires Sound(s) && k in s.runs && Writing(s.runs[k].phase) && s.runs[k].inode in s.disk.files
    requires n <= |s.runs[k].pending|
    ensures Sound(SpillStep(s, k, s.runs[k], n))
  {
  }

  /** A step that leaves every prune in its phase and the disk as it is. */
  lemma SameDiskSound(s: State, t: State)
    requires Sound(s) && t.disk == s.disk && t.runs.Keys == s.runs.Keys
    requires forall k :: k in s.runs ==>
      t.runs[k].phase == s.runs[k].phase && t.runs[k].inode == s.runs[k].inode
    ensures Sound(t)
  {
  }

  lemma OneRunSound(s: State, k: nat, run: Run)
    requires Sound(s)
    requires if k in s.runs
      then !run.phase.Began? && run.inode == s.runs[k].inode
        && (run.phase.Counted? ==> s.runs[k].phase.Began?)
        && (Writing(run.phase) ==> Writing(s.runs[k].phase))
      else run.phase.Began? || run.phase.Counted?
    ensures Sound(SetRun(s, k, run))
  {
  }

  lemma DeleteKeepsSound(s: State, k: nat)
    requires Sound(s) && k in s.runs && s.runs[k].phase.Verified?
    ensures Sound(DeleteStep(s, k, s.runs[k]))
  {
    var t := DeleteStep(s, k, s.runs[k]);
    OneRunSound(s, k, s.runs[k].(phase := Deleted));
    SameDiskSound(SetRun(s, k, s.runs[k].(phase := Deleted)), t);
  }

  lemma PostCountKeepsSound(s: State, k: nat, own: AuditRow)
    requires Sound(s) && k in s.runs && s.runs[k].phase.Deleted?
    ensures Sound(PostCountStep(s, k, s.runs[k], own))
  {
    var run := s.runs[k].(
      phase := Finished, postCount := |Candidates(s.rows, s.runs[k].cutoff)|);
    OneRunSound(s, k, run);
    SameDiskSound(SetRun(s, k, run), PostCountStep(s, k, s.runs[k], own));
  }

  lemma VerifyKeepsSound(s: State, k: nat)
    requires Sound(s) && k in s.runs && s.runs[k].phase.Synced?
    ensures Sound(VerifyStep(s, k, s.runs[k]))
  {
    OneRunSound(s, k, VerifyStep(s, k, s.runs[k]).runs[k]);
  }

  lemma StepKeepsSound(s: State, e: Event)
    requires Sound(s)
    ensures Sound(Apply(s, e))
  {
    if Apply(s, e) != s {
      EffectKeepsSound(s, e, Apply(s, e));
    }
  }

  lemma EffectKeepsSound(s: State, e: Event, t: State)
    requires Sound(s) && t == Apply(s, e) && t != s
    ensures Sound(t)
  {
    match e
    case Insert(row) => SameDiskSound(s, t);
    case Begin(k, _) => OneRunSound(s, k, t.runs[k]);
    case Count(k) => OneRunSound(s, k, t.runs[k]);
    case Open(k, file) => OpenKeepsSound(s, k, file);
    case Page(k) => OneRunSound(s, k, t.runs[k]);
    case Spill(k, n) => SpillKeepsSound(s, k, n);
    case Sync(k) => SyncKeepsSound(s, k);
    case Verify(k) => VerifyKeepsSound(s, k);
    case DeleteOld(k) => DeleteKeepsSound(s, k);
    case PostCount(k, own) => PostCountKeepsSound(s, k, own);
    case Fail(k) => OneRunSound(s, k, t.runs[k]);
    case BeginForeign(k, _) => OneRunSound(s, k, t.runs[k]);
    case PageForeign(k, _, _) => OneRunSound(s, k, t.runs[k]);
  }

  /** Every state that any schedule leads to is sound. */
  lemma {:induction false} ReachableSound(events: seq<Event>)
    ensures Sound(After(events))
  {
    if events != [] {
      ReachableSound(events[..|events| - 1]);
      StepKeepsSound(After(events[..|events| - 1]), events[|events| - 1]);
    }
  }

  // ---------- The steps that lose a row ----------

  /** Another name leads to an archive with the row. */
  ghost predicate HeldElsewhere(disk: Disk, file: string, r: AuditRow) {
    exists g :: g != file && Holds(disk, g, r)
  }

  /** What this name leads to is all that is left of the row. */
  ghost predicate OnlyCopy(s: State, file: string, r: AuditRow) {
    r !in s.rows && !HeldElsewhere(s.disk, file, r)
  }

  /** The step takes the last there is of the row: it opens the name of the only archive with
      it, removes that name, or deletes the row from the table when no archive has it. */
  ghost predicate Loses(s: State, e: Event, r: AuditRow) {
    match e
    case Open(k, file) => k in s.runs && s.runs[k].phase.Counted? && OnlyCopy(s, file, r)
    case Verify(k) =>
      k in s.runs && s.runs[k].phase.Synced? && s.runs[k].archived != s.runs[k].candidates
      && OnlyCopy(s, s.runs[k].file, r)
    case DeleteOld(k) => Removes(s, e, r) && !IsArchived(s.disk, r)
    case Insert(_) => false
    case Begin(_, _) => false
    case Count(_) => false
    case Page(_) => false
    case Spill(_, _) => false
    case Sync(_) => false
    case PostCount(_, _) => false
    case Fail(_) => false
    case BeginForeign(_, _) => false
    case PageForeign(_, _, _) => false
  }

  /** Where the name leads to no archive any more, the row is held if another one has it. */
  lemma HeldWithoutName(disk: Disk, disk': Disk, file: string, r: AuditRow)
    requires !Holds(disk', file, r)
    requires forall g :: g != file ==> (Holds(disk', g, r) <==> Holds(disk, g, r))
    ensures IsArchived(disk', r) <==> HeldElsewhere(disk, file, r)
  {
    if IsArchived(disk', r) {
      var g :| Holds(disk', g, r);
      assert g != file && Holds(disk, g, r);
    }
    if HeldElsewhere(disk, file, r) {
      var g :| g != file && Holds(disk, g, r);
      assert Holds(disk', g, r);
    }
  }

  /** Opening a file loses a row exactly if the file of that name is the only copy of it; a
      name that is taken does no harm otherwise. */
  lemma OpenKeepsExactly(s: State, k: nat, file: string, r: AuditRow)
    requires Sound(s) && k in s.runs && s.runs[k].phase.Counted? && Kept(s, r)
    ensures Kept(OpenStep(s, k, s.runs[k], file), r) <==> !OnlyCopy(s, file, r)
  {
    var t := OpenStep(s, k, s.runs[k], file);
    forall g | g != file
      ensures Holds(t.disk, g, r) <==> Holds(s.disk, g, r)
    {
      assert g in s.disk.dir ==> s.disk.dir[g] != t.disk.dir[file];
    }
    HeldWithoutName(s.disk, t.disk, file, r);
  }

  lemma VerifyKeepsExactly(s: State, k: nat, r: AuditRow)
    requires k in s.runs && s.runs[k].phase.Synced? && Kept(s, r)
    ensures Kept(VerifyStep(s, k, s.runs[k]), r) <==>
      !(s.runs[k].archived != s.runs[k].candidates && OnlyCopy(s, s.runs[k].file, r))
  {
    var run, t := s.runs[k], VerifyStep(s, k, s.runs[k]);
    if run.archived != run.candidates {
      assert forall g :: g != run.file ==> (Holds(t.disk, g, r) <==> Holds(s.disk, g, r));
      HeldWithoutName(s.disk, t.disk, run.file, r);
    }
  }

  /** Nothing is lost by writing: what is being written is no archive. */
  lemma WriteKeeps(s: State, t: State, inode: nat, r: AuditRow)
    requires Kept(s, r) && t.rows == s.rows && t.disk.dir == s.disk.dir
    requires inode in s.disk.files && !Intact(s.disk.files[inode])
    requires inode in t.disk.files && t.disk.files == s.disk.files[inode := t.disk.files[inode]]
    ensures Kept(t, r)
  {
    if r !in s.rows {
      var g :| Holds(s.disk, g, r);
      assert Holds(t.disk, g, r);
    }
  }

  lemma DeleteKeepsExactly(s: State, k: nat, r: AuditRow)
    requires k in s.runs && s.runs[k].phase.Verified? && Kept(s, r)
    ensures Kept(DeleteStep(s, k, s.runs[k]), r) <==>
      !(Before(r, s.runs[k].cutoff) && !IsArchived(s.disk, r))
  {
    FilterMember(NotOlderThan(s.runs[k].cutoff), s.rows, r);
  }

  /** A step keeps a row exactly unless it is one of the losing ones. */
  lemma StepKeepsExactly(s: State, e: Event, r: AuditRow)
    requires Sound(s) && Kept(s, r)
    ensures Kept(Apply(s, e), r) <==> !Loses(s, e, r)
  {
    if Apply(s, e) != s {
      EffectKeepsExactly(s, e, Apply(s, e), r);
    }
  }

  lemma EffectKeepsExactly(s: State, e: Event, t: State, r: AuditRow)
    requires Sound(s) && Kept(s, r) && t == Apply(s, e) && t != s
    ensures Kept(t, r) <==> !Loses(s, e, r)
  {
    match e
    case Open(k, file) => OpenKeepsExactly(s, k, file, r);
    case Spill(k, n) => WriteKeeps(s, t, s.runs[k].inode, r);
    case Sync(k) => WriteKeeps(s, t, s.runs[k].inode, r);
    case Verify(k) => VerifyKeepsExactly(s, k, r);
    case DeleteOld(k) => DeleteKeepsExactly(s, k, r);
    case _ =>
  }

  ghost predicate KeptThroughout(s: State, events: seq<Event>, r: AuditRow) {
    forall i :: 0 <= i <= |events| ==> Kept(Then(s, events[..i]), r)
  }

  ghost function Keeps(r: AuditRow): (State, Event) -> bool {
    (s, e) => !Loses(s, e, r)
  }

  lemma {:induction false} ThenSound(s: State, events: seq<Event>)
    requires Sound(s)
    ensures Sound(Then(s, events))
  {
    if events != [] {
      ThenSound(s, events[..|events| - 1]);
      StepKeepsSound(Then(s, events[..|events| - 1]), events[|events| - 1]);
    }
  }

  /** Over every schedule a row is kept throughout exactly if none of its steps loses it. */
  lemma {:induction false} KeptThroughoutExactly(s: State, events: seq<Event>, r: AuditRow)
    requires Sound(s) && Kept(s, r)
    ensures KeptThroughout(s, events, r) <==> Obeys(s, events, Keeps(r))
  {
    if events == [] {
      assert events[..0] == [];
    } else {
      var front, e := events[..|events| - 1], events[|events| - 1];
      assert events == front + [e];
      KeptThroughoutExactly(s, front, r);
      KeptOneMore(s, front, e, r);
      ObeysOneMore(s, front, e, Keeps(r));
      if KeptThroughout(s, front, r) {
        assert front[..|front|] == front;
        assert Kept(Then(s, front[..|front|]), r);
        ThenSound(s, front);
        StepKeepsExactly(Then(s, front), e, r);
      }
    }
  }

  lemma KeptOneMore(s: State, front: seq<Event>, e: Event, r: AuditRow)
    ensures KeptThroughout(s, front + [e], r) <==>
      KeptThroughout(s, front, r) && Kept(Apply(Then(s, front), e), r)
  {
    var events := front + [e];
    ThenOneMore(s, front, e);
    assert events[..|events|] == events;
    assert forall i :: 0 <= i <= |front| ==> events[..i] == front[..i];
    if KeptThroughout(s, events, r) {
      forall i | 0 <= i <= |front|
        ensures Kept(Then(s, front[..i]), r)
      {
        assert Kept(Then(s, events[..i]), r);
      }
      assert Kept(Then(s, events[..|events|]), r);
    }
    if KeptThroughout(s, front, r) && Kept(Apply(Then(s, front), e), r) {
      forall i | 0 <= i <= |events|
        ensures Kept(Then(s, events[..i]), r)
      {
        assert i <= |front| ==> Kept(Then(s, front[..i]), r);
      }
    }
  }

  // ---------- When every durable file is an archive ----------

  /** No prune opens a name while another is writing the file it leads to. */
  predicate NotInUse(s: State, e: Event) {
    e.Open? && e.file in s.disk.dir ==> !InUse(s, s.disk.dir[e.file])
  }

  ghost predicate NoneMixed(s: State) {
    forall i :: i in s.disk.files ==> !s.disk.files[i].mixed
  }

  lemma StepKeepsUnmixed(s: State, e: Event)
    requires NoneMixed(s) && NotInUse(s, e)
    ensures NoneMixed(Apply(s, e))
  {
    match e
    case Spill(k, n) =>
    case Sync(k) =>
    case _ =>
  }

  /** Then no two prunes ever write one file at a time. */
  lemma {:induction false} NeverMixed(events: seq<Event>)
    requires Respects(events, NotInUse)
    ensures NoneMixed(After(events))
  {
    if events != [] {
      RespectsPrefix(events, NotInUse);
      NeverMixed(events[..|events| - 1]);
      StepKeepsUnmixed(After(events[..|events| - 1]), events[|events| - 1]);
    }
  }
}
