/** What becomes of temporary names, and how a put ends that met a fault. */
module ReceiptTemporaries {
  import opened Octets
  import opened ReceiptStore

  /** The stage still has the temporary name in hand. */
  ghost predicate InHand(stage: Stage, name: Name) {
    match stage
    case Writing(temporary, _, _) => temporary == name
    case Syncing(temporary, _) => temporary == name
    case Closing(temporary, _, _) => temporary == name
    case Linking(temporary, _) => temporary == name
    case Discarding(temporary, _, _) => temporary == name
    case UnlinkingRaced(temporary, _) => temporary == name
    case UnlinkingPublished(temporary, _) => temporary == name
    case _ => false
  }

  /** A fault, a stop or power loss has come in its way. */
  ghost predicate Disturbed(w: Writer) {
    w.faulted || w.stage.Stopped?
  }

  /** The file was made in this run, by a put whose name for it this is. */
  ghost predicate MadeHere(h: Digest, start: Store, s: Store, name: Name, inode: nat) {
    && |start.files| <= inode < |s.files| && s.files[inode].maker in s.writers
    && var w := s.writers[s.files[inode].maker];
       name.Temporary? && name.digest == h(w.input) && name.pid == w.pid && name.attempt < ATTEMPTS
  }

  ghost predicate FromStart(start: Store, name: Name, inode: nat) {
    (name in start.directory && start.directory[name] == inode) || (name in start.syncedDirectory && start.syncedDirectory[name] == inode)
  }

  /** Each temporary name was there at the start, or is in the hand of the put that made
      it, or that put was disturbed. */
  ghost predicate Accounted(h: Digest, start: Store, s: Store) {
    forall name: Name | name in s.directory && name.Temporary? ::
      var inode := s.directory[name];
      FromStart(start, name, inode) ||
      (MadeHere(h, start, s, name, inode) && (InHand(s.writers[s.files[inode].maker].stage, name) || Disturbed(s.writers[s.files[inode].maker])))
  }

  /** On disk a temporary name may outlive its put, until the directory is synced. */
  ghost predicate AccountedOnDisk(h: Digest, start: Store, s: Store) {
    forall name: Name | name in s.syncedDirectory && name.Temporary? ::
      FromStart(start, name, s.syncedDirectory[name]) || MadeHere(h, start, s, name, s.syncedDirectory[name])
  }

  /** The files stay with their makers, and the puts with their names. */
  ghost predicate Grown(s: Store, after: Store) {
    && |s.files| <= |after.files| && (forall i | 0 <= i < |s.files| :: after.files[i].maker == s.files[i].maker)
    && forall q | q in s.writers ::
      q in after.writers && after.writers[q].input == s.writers[q].input && after.writers[q].pid == s.writers[q].pid
  }

  lemma MadeStays(h: Digest, start: Store, s: Store, after: Store, name: Name, inode: nat)
    requires MadeHere(h, start, s, name, inode) && Grown(s, after)
    ensures MadeHere(h, start, after, name, inode) && after.files[inode].maker == s.files[inode].maker
  {
  }

  lemma OnDiskStays(h: Digest, start: Store, s: Store, after: Store)
    requires AccountedOnDisk(h, start, s) && Grown(s, after) && after.syncedDirectory == s.syncedDirectory
    ensures AccountedOnDisk(h, start, after)
  {
    hide Grown, MadeHere, FromStart;
    forall name: Name | name in after.syncedDirectory && name.Temporary?
      ensures FromStart(start, name, after.syncedDirectory[name]) || MadeHere(h, start, after, name, after.syncedDirectory[name])
    {
      if !FromStart(start, name, s.syncedDirectory[name]) {
        MadeStays(h, start, s, after, name, s.syncedDirectory[name]);
      }
    }
  }

  /** What a step of one put does to its temporary names: it takes the next one, keeps the
      one in its hand, or removes it. */
  ghost predicate Handled(h: Digest, s: Store, after: Store, p: nat) {
    && p in s.writers && p in after.writers
    && var w, v := s.writers[p], after.writers[p];
    && v.input == w.input && v.pid == w.pid && (w.faulted ==> v.faulted) && (w.stage.Stopped? ==> v.stage.Stopped?)
    && after.syncedDirectory == (if w.stage.SyncingRoot? then s.directory else s.syncedDirectory)
    && forall name: Name | name in after.directory && name.Temporary? ::
         if name in s.directory then after.directory[name] == s.directory[name] && (InHand(w.stage, name) ==> InHand(v.stage, name))
         else
           && name.digest == h(w.input) && name.pid == w.pid && name.attempt < ATTEMPTS && InHand(v.stage, name)
           && after.directory[name] == |s.files| < |after.files| && after.files[|s.files|].maker == p
  }

  lemma OpenHandled(h: Digest, s: Store, p: nat)
    requires p in s.writers && s.writers[p].stage.Opening? && WriterOk(h, s, p)
    ensures Handled(h, s, Open(h, s, p, s.writers[p].stage.attempt), p)
  {
  }

  lemma WriteHandled(h: Digest, s: Store, p: nat, count: nat)
    requires p in s.writers && s.writers[p].stage.Writing?
    ensures Handled(h, s, Write(s, p, count), p)
  {
  }

  lemma SyncHandled(h: Digest, s: Store, p: nat)
    requires p in s.writers && s.writers[p].stage.Syncing?
    ensures Handled(h, s, Sync(s, p), p)
  {
  }

  lemma LinkHandled(h: Digest, s: Store, p: nat)
    requires p in s.writers && s.writers[p].stage.Linking?
    ensures Handled(h, s, Link(h, s, p), p)
  {
  }

  lemma UnlinkHandled(h: Digest, s: Store, p: nat, temporary: Name, stage: Stage)
    requires p in s.writers && !s.writers[p].stage.Stopped? && !s.writers[p].stage.SyncingRoot?
    requires forall name :: InHand(s.writers[p].stage, name) ==> name == temporary
    ensures Handled(h, s, At(Unlink(s, temporary), p, stage), p)
  {
  }

  lemma CheckHandled(h: Digest, s: Store, p: nat, count: nat)
    requires p in s.writers
    ensures s.writers[p].stage.CheckOpening? ==> Handled(h, s, OpenStored(h, s, p), p)
    ensures s.writers[p].stage.Reading? ==> Handled(h, s, Read(h, s, p, count), p)
  {
  }

  lemma AdvanceHandled(h: Digest, s: Store, p: nat, count: nat)
    requires Invariant(h, s) && p in s.writers
    ensures Handled(h, s, Advance(h, s, p, count), p)
  {
    hide Invariant, WriterOk, Open, Write, Sync, Link, OpenStored, Read;
    WriterIsOk(h, s, p);
    match s.writers[p].stage {
      case Opening(_) => OpenHandled(h, s, p);
      case Writing(_, _, _) => WriteHandled(h, s, p, count);
      case Syncing(_, _) => SyncHandled(h, s, p);
      case Linking(_, _) => LinkHandled(h, s, p);
      case Discarding(temporary, _, code) => UnlinkHandled(h, s, p, temporary, Done(code));
      case UnlinkingRaced(temporary, _) => UnlinkHandled(h, s, p, temporary, CheckOpening(Raced));
      case UnlinkingPublished(temporary, _) => UnlinkHandled(h, s, p, temporary, SyncingRoot);
      case CheckOpening(_) => CheckHandled(h, s, p, count);
      case Reading(_, _, _, _) => CheckHandled(h, s, p, count);
      case _ =>
    }
  }

  lemma AdvanceGrown(h: Digest, s: Store, p: nat, count: nat)
    requires Invariant(h, s) && p in s.writers
    ensures Grown(s, Advance(h, s, p, count))
    ensures forall q | q in s.writers && q != p :: q in Advance(h, s, p, count).writers && Advance(h, s, p, count).writers[q] == s.writers[q]
  {
    hide Invariant, WriterOk, NamesKept, DirectoryOk, Advance, InHand;
    AdvanceGood(h, s, p, count);
    AdvanceHandled(h, s, p, count);
  }

  lemma AdvanceAccounted(h: Digest, start: Store, s: Store, p: nat, count: nat)
    requires Invariant(h, s) && p in s.writers && |start.files| <= |s.files|
    requires Accounted(h, start, s) && AccountedOnDisk(h, start, s)
    ensures Accounted(h, start, Advance(h, s, p, count)) && AccountedOnDisk(h, start, Advance(h, s, p, count))
  {
    hide Invariant, Advance, InHand, FromStart;
    var after := Advance(h, s, p, count);
    AdvanceGrown(h, s, p, count);
    AdvanceHandled(h, s, p, count);
    forall name: Name | name in after.directory && name.Temporary?
      ensures var inode := after.directory[name];
        FromStart(start, name, inode) ||
        (MadeHere(h, start, after, name, inode) && (InHand(after.writers[after.files[inode].maker].stage, name) || Disturbed(after.writers[after.files[inode].maker])))
    {
      if name in s.directory && !FromStart(start, name, s.directory[name]) {
        MadeStays(h, start, s, after, name, s.directory[name]);
      }
    }
    if s.writers[p].stage.SyncingRoot? {
      RootSynced(h, start, s, after);
    } else {
      OnDiskStays(h, start, s, after);
    }
  }

  lemma RootSynced(h: Digest, start: Store, s: Store, after: Store)
    requires Accounted(h, start, s) && Grown(s, after) && after.syncedDirectory == s.directory
    ensures AccountedOnDisk(h, start, after)
  {
    hide Grown, MadeHere, FromStart, InHand, Disturbed;
    forall name: Name | name in after.syncedDirectory && name.Temporary?
      ensures FromStart(start, name, after.syncedDirectory[name]) || MadeHere(h, start, after, name, after.syncedDirectory[name])
    {
      if !FromStart(start, name, s.directory[name]) {
        MadeStays(h, start, s, after, name, s.directory[name]);
      }
    }
  }

  /** A fault or a stop removes no name, and disturbs the put. */
  lemma DisturbedAccounted(h: Digest, start: Store, s: Store, p: nat, w: Writer)
    requires p in s.writers && Accounted(h, start, s) && AccountedOnDisk(h, start, s)
    requires w.input == s.writers[p].input && w.pid == s.writers[p].pid && Disturbed(w)
    ensures Accounted(h, start, s.(writers := s.writers[p := w])) && AccountedOnDisk(h, start, s.(writers := s.writers[p := w]))
  {
    hide InHand, FromStart;
    var after := s.(writers := s.writers[p := w]);
    OnDiskStays(h, start, s, after);
  }

  lemma SpawnAccounted(h: Digest, start: Store, s: Store, p: nat, w: Writer)
    requires p !in s.writers && Accounted(h, start, s) && AccountedOnDisk(h, start, s)
    ensures Accounted(h, start, s.(writers := s.writers[p := w])) && AccountedOnDisk(h, start, s.(writers := s.writers[p := w]))
  {
    hide InHand, FromStart;
    var after := s.(writers := s.writers[p := w]);
    OnDiskStays(h, start, s, after);
  }

  lemma LoseAccounted(h: Digest, start: Store, s: Store, kept: set<Name>, rest: seq<Bytes>)
    requires Accounted(h, start, s) && AccountedOnDisk(h, start, s)
    ensures Accounted(h, start, Lose(s, kept, rest)) && AccountedOnDisk(h, start, Lose(s, kept, rest))
  {
    hide InHand, FromStart;
    var after := Lose(s, kept, rest);
    OnDiskStays(h, start, s, after);
    forall name: Name | name in after.directory && name.Temporary?
      ensures FromStart(start, name, after.directory[name]) ||
        (MadeHere(h, start, after, name, after.directory[name]) && Disturbed(after.writers[after.files[after.directory[name]].maker]))
    {
      if !FromStart(start, name, after.directory[name]) {
        MadeStays(h, start, s, after, name, after.directory[name]);
      }
    }
  }

  lemma StepAccounted(h: Digest, start: Store, s: Store, e: Event)
    requires Invariant(h, s) && |start.files| <= |s.files| && Accounted(h, start, s) && AccountedOnDisk(h, start, s)
    ensures Accounted(h, start, Step(h, s, e)) && AccountedOnDisk(h, start, Step(h, s, e)) && |start.files| <= |Step(h, s, e).files|
  {
    hide Invariant, Advance, Accounted, AccountedOnDisk, Lose;
    match e {
      case Spawn(p, pid, input) =>
        if p !in s.writers && 0 < |input| <= MAXIMUM_BYTES {
          SpawnAccounted(h, start, s, p, Writer(pid, input, Start, false, false, 0));
        }
      case Move(p, count) =>
        if p in s.writers {
          AdvanceAccounted(h, start, s, p, count);
          AdvanceGrown(h, s, p, count);
        }
      case Fault(p) =>
        if p in s.writers {
          DisturbedAccounted(h, start, s, p, Fail(s, p).writers[p]);
        }
      case Stop(p) =>
        if p in s.writers {
          DisturbedAccounted(h, start, s, p, At(s, p, Stopped).writers[p]);
        }
      case PowerLoss(kept, rest) =>
        LoseAccounted(h, start, s, kept, rest);
        LoseFiles(s, kept, rest);
    }
  }

  lemma LoseFiles(s: Store, kept: set<Name>, rest: seq<Bytes>)
    ensures |Lose(s, kept, rest).files| == |s.files|
  {
  }

  /** In every run each temporary name was there at the start, or is in the hand of the
      put that made it, or that put met a fault, a stop or power loss. */
  lemma {:induction false} RunAccounted(h: Digest, s: Store, events: seq<Event>)
    requires Invariant(h, s)
    requires s.writers == map[]
    ensures Accounted(h, s, Run(h, s, events)) && AccountedOnDisk(h, s, Run(h, s, events)) && |s.files| <= |Run(h, s, events).files|
  {
    hide Invariant, Step, Accounted, AccountedOnDisk;
    if events == [] {
      StartAccounted(h, s);
    } else {
      var before := events[..|events| - 1];
      RunAccounted(h, s, before);
      RunKeeps(h, s, before);
      StepAccounted(h, s, Run(h, s, before), events[|events| - 1]);
    }
  }

  lemma StartAccounted(h: Digest, s: Store)
    ensures Accounted(h, s, s) && AccountedOnDisk(h, s, s)
  {
  }

  /** So a put that ended undisturbed, having published, raced or found its receipt, left
      no temporary name of its own behind. */
  lemma NothingLeft(h: Digest, s: Store, events: seq<Event>, p: nat, name: Name)
    requires Invariant(h, s) && s.writers == map[] && p in Run(h, s, events).writers
    requires var w := Run(h, s, events).writers[p]; w.stage.Done? && !w.faulted
    requires name.Temporary? && name in Run(h, s, events).directory
    ensures var r := Run(h, s, events); var inode := r.directory[name];
      FromStart(s, name, inode) || (inode < |r.files| && r.files[inode].maker in r.writers && r.files[inode].maker != p)
  {
    hide Invariant, Run;
    RunAccounted(h, s, events);
  }

  // ----- how a put ends that met a fault -----

  /** The put can only end with this code. */
  ghost predicate BoundFor(stage: Stage, code: nat) {
    match stage
    case Closing(_, _, wrote) => !wrote && code == 74
    case Discarding(_, _, c) => c == code
    case Done(c) => c == code
    case Stopped => true
    case _ => false
  }

  lemma BoundStep(h: Digest, s: Store, e: Event, p: nat, code: nat)
    requires Invariant(h, s) && p in s.writers && BoundFor(s.writers[p].stage, code)
    ensures p in Step(h, s, e).writers && BoundFor(Step(h, s, e).writers[p].stage, code)
  {
    hide Invariant, Open, Write, Sync, Link, OpenStored, Read;
    match e {
      case Move(q, count) =>
        if q in s.writers && q != p {
          AdvanceGrown(h, s, q, count);
        }
      case _ =>
    }
  }

  lemma {:induction false} BoundRun(h: Digest, s: Store, events: seq<Event>, p: nat, code: nat)
    requires Invariant(h, s) && p in s.writers && BoundFor(s.writers[p].stage, code)
    ensures p in Run(h, s, events).writers && BoundFor(Run(h, s, events).writers[p].stage, code)
  {
    hide Invariant, Step, BoundFor;
    if events != [] {
      var before := events[..|events| - 1];
      RunKeeps(h, s, before);
      BoundRun(h, s, before, p, code);
      BoundStep(h, Run(h, s, before), events[|events| - 1], p, code);
    }
  }

  /** A put that ends after a call of its failed ends with the code of that call: 73 for
      inspecting, opening and linking, 74 for writing, syncing and closing the temporary
      file, for removing it once published, for syncing the directory and for reporting,
      and for the check of the stored file 73 after a lost race and 65 otherwise.  Only
      the removal of a temporary name after a lost race may fail unnoticed. */
  lemma FaultDecides(h: Digest, s: Store, p: nat, events: seq<Event>)
    requires Invariant(h, s) && p in s.writers
    ensures p in Run(h, Fail(s, p), events).writers
    ensures var stage, last := s.writers[p].stage, Run(h, Fail(s, p), events).writers[p].stage;
      last.Done? ==>
        && (stage.Start? || stage.Opening? || stage.Linking? ==> last.code == 73)
        && (stage.Writing? || stage.Syncing? || stage.Closing? ==> last.code == 74)
        && (stage.UnlinkingPublished? || stage.SyncingRoot? || stage.Reporting? ==> last.code == 74)
        && (stage.CheckOpening? || stage.Reading? ==> last.code == if stage.check == Raced then 73 else 65)
    ensures s.writers[p].stage.UnlinkingRaced? ==> Fail(s, p).writers[p].stage == CheckOpening(Raced)
  {
    hide Invariant, Run;
    FailGood(h, s, p);
    GoodKeeps(h, s, Fail(s, p), p);
    if BoundFor(Fail(s, p).writers[p].stage, 65) {
      BoundRun(h, Fail(s, p), events, p, 65);
    }
    if BoundFor(Fail(s, p).writers[p].stage, 73) {
      BoundRun(h, Fail(s, p), events, p, 73);
    }
    if BoundFor(Fail(s, p).writers[p].stage, 74) {
      BoundRun(h, Fail(s, p), events, p, 74);
    }
    WriterStays(h, Fail(s, p), events, p);
  }

  lemma {:induction false} WriterStays(h: Digest, s: Store, events: seq<Event>, p: nat)
    requires Invariant(h, s) && p in s.writers
    ensures p in Run(h, s, events).writers
  {
    hide Invariant, Advance;
    if events != [] {
      var before, e := events[..|events| - 1], events[|events| - 1];
      RunKeeps(h, s, before);
      WriterStays(h, s, before, p);
      if e.Move? && e.writer in Run(h, s, before).writers {
        AdvanceGrown(h, Run(h, s, before), e.writer, e.count);
      }
    }
  }

  // ----- how an undisturbed put ends -----

  /** Other bytes are stored under the digest of the put's input. */
  ghost predicate Occupied(h: Digest, s: Store, input: Bytes) {
    && Target(h(input)) in s.directory && s.directory[Target(h(input))] < |s.files|
    && s.files[s.directory[Target(h(input))]].content != input
  }

  ghost predicate EndsExactly(h: Digest, s: Store, w: Writer) {
    && w.taken <= 16 && (w.taken == 16 ==> w.stage == Done(73) || w.stage.Stopped?)
    && (w.stage.Done? && !w.faulted && w.taken < 16 ==>
          if w.stage.code == 0 then Stored(h, s, w.input) else (w.stage.code == 65 || w.stage.code == 73) && Occupied(h, s, w.input))
  }

  lemma ReadEnds(h: Digest, s: Store, p: nat, count: nat)
    requires Invariant(h, s) && p in s.writers && s.writers[p].stage.Reading? && EndsExactly(h, s, s.writers[p])
    ensures p in Read(h, s, p, count).writers && EndsExactly(h, Read(h, s, p, count), Read(h, s, p, count).writers[p])
  {
    hide DirectoryOk;
    assert WriterOk(h, s, p);
    var inode := s.writers[p].stage.inode;
    PublishedTarget(h, s, s.writers[p].input);
    var content := s.files[inode].content;
    assert content[..|content|] == content;
  }

  lemma OpenStoredEnds(h: Digest, s: Store, p: nat)
    requires Invariant(h, s) && p in s.writers && s.writers[p].stage.CheckOpening? && EndsExactly(h, s, s.writers[p])
    ensures p in OpenStored(h, s, p).writers && EndsExactly(h, OpenStored(h, s, p), OpenStored(h, s, p).writers[p])
  {
    hide DirectoryOk;
    assert WriterOk(h, s, p);
    PublishedTarget(h, s, s.writers[p].input);
  }

  lemma AdvanceEnds(h: Digest, s: Store, p: nat, count: nat)
    requires Invariant(h, s) && p in s.writers && EndsExactly(h, s, s.writers[p])
    ensures p in Advance(h, s, p, count).writers && EndsExactly(h, Advance(h, s, p, count), Advance(h, s, p, count).writers[p])
  {
    hide Invariant, Clip, Read, OpenStored;
    WriterIsOk(h, s, p);
    match s.writers[p].stage {
      case CheckOpening(_) => OpenStoredEnds(h, s, p);
      case Reading(_, _, _, _) => ReadEnds(h, s, p, count);
      case _ =>
    }
  }

  /** What another put does leaves it so. */
  lemma EndsStays(h: Digest, s: Store, after: Store, p: nat, q: nat)
    requires Invariant(h, s) && Kept(s, after, q) && p != q && p in s.writers && EndsExactly(h, s, s.writers[p])
    ensures p in after.writers && EndsExactly(h, after, after.writers[p])
  {
    hide WriterOk, DirectoryOk, FilesKept, NamesKept;
    var input := s.writers[p].input;
    if Target(h(input)) in s.directory {
      TargetKept(h, s, after, q, input);
    }
  }

  lemma StepEnds(h: Digest, s: Store, e: Event, p: nat)
    requires Invariant(h, s) && p in Step(h, s, e).writers && (p in s.writers ==> EndsExactly(h, s, s.writers[p]))
    ensures EndsExactly(h, Step(h, s, e), Step(h, s, e).writers[p])
  {
    hide Invariant, Advance, Kept, FilesKept, NamesKept;
    match e {
      case Move(q, count) =>
        if q in s.writers && p in s.writers {
          if q == p {
            AdvanceEnds(h, s, p, count);
          } else {
            AdvanceGood(h, s, q, count);
            EndsStays(h, s, Advance(h, s, q, count), p, q);
          }
        } else if q in s.writers {
          AdvanceOther(h, s, q, count, p);
        }
      case _ =>
    }
  }

  /** A put that no fault disturbed ends with 0 exactly when its own bytes are stored;
      otherwise other bytes with its digest are, and it ends with 65 or 73; or all sixteen
      of its temporary names were taken, and it ends with 73. */
  lemma {:induction false} RunEndsExactly(h: Digest, s: Store, events: seq<Event>, p: nat)
    requires Invariant(h, s) && s.writers == map[] && p in Run(h, s, events).writers
    ensures EndsExactly(h, Run(h, s, events), Run(h, s, events).writers[p])
  {
    hide Invariant, Step, EndsExactly;
    if events != [] {
      var before, e := events[..|events| - 1], events[|events| - 1];
      RunKeeps(h, s, before);
      if p in Run(h, s, before).writers {
        RunEndsExactly(h, s, before, p);
      }
      StepEnds(h, Run(h, s, before), e, p);
    }
  }
}
