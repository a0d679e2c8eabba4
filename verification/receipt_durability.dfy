/** What power loss can take from the receipt store, and which puts are safe from it. */
module ReceiptDurability {
  import opened Octets

  import opened ReceiptStore

  /** The receipt outlasts every power loss that could happen now. */
  ghost predicate Durable(s: Store, digest: nat) {
    forall kept, rest :: Target(digest) in Lose(s, kept, rest).directory
  }

  /** What survives any power loss is what the synced directory names, and it survives
      unchanged. */
  lemma SurvivesExactly(h: Digest, s: Store, digest: nat)
    requires Invariant(h, s)
    ensures Durable(s, digest) <==> Target(digest) in s.syncedDirectory
    ensures forall kept, rest ::
      Invariant(h, Lose(s, kept, rest)) && (Target(digest) in Lose(s, kept, rest).directory ==> Receipt(h, Lose(s, kept, rest), digest) == Receipt(h, s, digest))
  {
    hide WriterOk, DirectoryOk;
    if Target(digest) !in s.syncedDirectory {
      assert Target(digest) !in Lose(s, {}, []).directory;
    }
    forall kept, rest
      ensures Invariant(h, Lose(s, kept, rest)) && (Target(digest) in Lose(s, kept, rest).directory ==> Receipt(h, Lose(s, kept, rest), digest) == Receipt(h, s, digest))
    {
      LoseKeeps(h, s, kept, rest);
      if Target(digest) in s.directory {
        StepImmutable(h, s, PowerLoss(kept, rest), digest);
      }
    }
  }

  /** A put that published its receipt itself has made it durable before it returns 0. */
  lemma PublisherIsDurable(h: Digest, s: Store, events: seq<Event>, p: nat)
    requires Invariant(h, s)
    ensures var r := Run(h, s, events);
      p in r.writers && r.writers[p].stage == Done(0) && r.writers[p].linked ==> Durable(r, h(r.writers[p].input))
  {
    hide DirectoryOk;
    RunKeeps(h, s, events);
    var r := Run(h, s, events);
    if p in r.writers && r.writers[p].stage == Done(0) && r.writers[p].linked {
      assert WriterOk(h, r, p);
      SurvivesExactly(h, r, h(r.writers[p].input));
    }
  }

  // ----- a put that inspects an empty place -----

  ghost predicate Ended(stage: Stage) {
    stage.Done? || stage.Stopped?
  }

  /** No other put of the same digest is under way. */
  ghost predicate NoRival(h: Digest, s: Store, p: nat, digest: nat) {
    forall q | q in s.writers && q != p && h(s.writers[q].input) == digest :: Ended(s.writers[q].stage)
  }

  ghost predicate NoRivalSpawns(h: Digest, events: seq<Event>, p: nat, digest: nat) {
    forall i | 0 <= i < |events| && events[i].Spawn? && events[i].writer != p :: h(events[i].input) != digest
  }

  /** Before its link nothing has the name, and it comes to a check of the stored file
      only after its own link. */
  ghost predicate OwnLinkFirst(s: Store, p: nat, digest: nat)
    requires p in s.writers
  {
    match s.writers[p].stage
    case Start => Target(digest) !in s.directory
    case Opening(_) => Target(digest) !in s.directory
    case Writing(_, _, _) => Target(digest) !in s.directory
    case Syncing(_, _) => Target(digest) !in s.directory
    case Closing(_, _, _) => Target(digest) !in s.directory
    case Linking(_, _) => Target(digest) !in s.directory
    case Discarding(_, _, code) => code != 0
    case Done(code) => code == 0 ==> s.writers[p].linked
    case Stopped => true
    case _ => s.writers[p].linked
  }

  ghost predicate AloneWith(h: Digest, s: Store, p: nat, digest: nat) {
    p in s.writers && h(s.writers[p].input) == digest && NoRival(h, s, p, digest) && OwnLinkFirst(s, p, digest)
  }

  /** A step of one writer adds no receipt name but its own. */
  lemma OtherNames(h: Digest, s: Store, q: nat, count: nat, digest: nat)
    requires q in s.writers && (h(s.writers[q].input) == digest ==> Ended(s.writers[q].stage))
    ensures Target(digest) in Advance(h, s, q, count).directory ==> Target(digest) in s.directory
  {
  }

  lemma OwnStep(h: Digest, s: Store, p: nat, count: nat, digest: nat)
    requires AloneWith(h, s, p, digest)
    ensures AloneWith(h, Advance(h, s, p, count), p, digest)
  {
    hide Advance, OwnLinkFirst;
    AdvanceOthers(h, s, p, count);
    OwnStage(h, s, p, count, digest);
  }

  lemma OwnStage(h: Digest, s: Store, p: nat, count: nat, digest: nat)
    requires p in s.writers && h(s.writers[p].input) == digest && OwnLinkFirst(s, p, digest)
    ensures p in Advance(h, s, p, count).writers && OwnLinkFirst(Advance(h, s, p, count), p, digest)
  {
    hide Clip;
    match s.writers[p].stage {
      case Opening(attempt) =>
        hide Write, Sync, Link, OpenStored, Read;
      case Writing(_, _, _) =>
        hide Open, Sync, Link, OpenStored, Read;
      case Syncing(_, _) =>
        hide Open, Write, Link, OpenStored, Read;
      case Linking(_, _) =>
        hide Open, Write, Sync, OpenStored, Read;
      case CheckOpening(_) =>
        hide Open, Write, Sync, Link, Read;
      case Reading(_, _, _, _) =>
        hide Open, Write, Sync, Link, OpenStored;
      case _ =>
        hide Open, Write, Sync, Link, OpenStored, Read;
    }
  }

  lemma {:induction false} AloneStays(h: Digest, s: Store, e: Event, p: nat, digest: nat)
    requires Invariant(h, s) && AloneWith(h, s, p, digest)
    requires e.Spawn? && e.writer != p ==> h(e.input) != digest
    ensures AloneWith(h, Step(h, s, e), p, digest)
  {
    match e {
      case Move(q, count) =>
        hide Advance, WriterOk, DirectoryOk, Invariant;
        if q == p {
          OwnStep(h, s, p, count, digest);
        } else if q in s.writers {
          OtherNames(h, s, q, count, digest);
          AdvanceOthers(h, s, q, count);
          if Ended(s.writers[q].stage) {
            EndedStays(h, s, q, count);
          }
        }
      case _ =>
        hide Invariant, Advance;
    }
  }

  lemma AdvanceOthers(h: Digest, s: Store, q: nat, count: nat)
    requires q in s.writers
    ensures var after := Advance(h, s, q, count).writers;
      q in after && after[q].input == s.writers[q].input && after == s.writers[q := after[q]]
  {
    hide Clip;
    match s.writers[q].stage {
      case Opening(attempt) =>
        hide Write, Sync, Link, OpenStored, Read;
      case Writing(_, _, _) =>
        hide Open, Sync, Link, OpenStored, Read;
      case Syncing(_, _) =>
        hide Open, Write, Link, OpenStored, Read;
      case Linking(_, _) =>
        hide Open, Write, Sync, OpenStored, Read;
      case CheckOpening(_) =>
        hide Open, Write, Sync, Link, Read;
      case Reading(_, _, _, _) =>
        hide Open, Write, Sync, Link, OpenStored;
      case _ =>
        hide Open, Write, Sync, Link, OpenStored, Read;
        assert s.writers == s.writers[q := s.writers[q]];
    }
  }

  lemma EndedStays(h: Digest, s: Store, q: nat, count: nat)
    requires q in s.writers && Ended(s.writers[q].stage)
    ensures Advance(h, s, q, count) == s
  {
  }

  lemma {:induction false} AloneRuns(h: Digest, s: Store, events: seq<Event>, p: nat, digest: nat)
    requires Invariant(h, s) && AloneWith(h, s, p, digest) && NoRivalSpawns(h, events, p, digest)
    ensures AloneWith(h, Run(h, s, events), p, digest)
  {
    hide Invariant, AloneWith, Step;
    if events != [] {
      var before := events[..|events| - 1];
      AloneRuns(h, s, before, p, digest);
      RunKeeps(h, s, before);
      AloneStays(h, Run(h, s, before), events[|events| - 1], p, digest);
    }
  }

  /** A put that is about to inspect a place with nothing in it, with no other put of
      that digest under way until it ends, is durable if it returns 0. */
  lemma AbsentThenDurable(h: Digest, s: Store, events: seq<Event>, p: nat)
    requires Invariant(h, s) && p in s.writers && s.writers[p].stage == Start
    requires var digest := h(s.writers[p].input);
      Target(digest) !in s.directory && NoRival(h, s, p, digest) && NoRivalSpawns(h, events, p, digest)
    ensures var r := Run(h, s, events);
      p in r.writers && (r.writers[p].stage == Done(0) ==> Durable(r, h(s.writers[p].input)))
  {
    hide Invariant, Step, Run, Durable;
    AloneRuns(h, s, events, p, h(s.writers[p].input));
    PublisherIsDurable(h, s, events, p);
  }

  // ----- a put that finds the receipt in place -----

  /** Event i of the run is a directory sync by a put that published, at a moment when
      the name is there. */
  ghost predicate SyncsName(h: Digest, s: Store, events: seq<Event>, i: nat, digest: nat)
    requires i < |events|
  {
    var before := Run(h, s, events[..i]);
    && events[i].Move? && events[i].writer in before.writers && before.writers[events[i].writer].stage.SyncingRoot?
    && Target(digest) in before.directory
  }

  ghost predicate Synced(h: Digest, s: Store, events: seq<Event>, digest: nat) {
    exists i | 0 <= i < |events| :: SyncsName(h, s, events, i, digest)
  }

  /** A step makes a name durable only as the directory sync of a publisher. */
  lemma SyncStep(h: Digest, s: Store, e: Event, digest: nat)
    requires Invariant(h, s)
    ensures Target(digest) in Step(h, s, e).syncedDirectory <==>
      Target(digest) in s.syncedDirectory
      || (e.Move? && e.writer in s.writers && s.writers[e.writer].stage.SyncingRoot? && Target(digest) in s.directory)
  {
    hide WriterOk, Clip;
  }

  lemma SyncedLonger(h: Digest, s: Store, events: seq<Event>, e: Event, digest: nat)
    ensures Synced(h, s, events + [e], digest) <==> Synced(h, s, events, digest) || SyncsName(h, s, events + [e], |events|, digest)
  {
    hide Run;
    var all := events + [e];
    forall i | 0 <= i < |events|
      ensures SyncsName(h, s, all, i, digest) <==> SyncsName(h, s, events, i, digest)
    {
      assert all[..i] == events[..i];
    }
    if i :| 0 <= i < |events| && SyncsName(h, s, events, i, digest) {
      assert SyncsName(h, s, all, i, digest);
    }
  }

  /** After any run a receipt is durable exactly when it was before, or some publisher,
      of this receipt or another, synced the directory while the name was there. */
  lemma DurableExactly(h: Digest, s: Store, events: seq<Event>, digest: nat)
    requires Invariant(h, s)
    ensures Durable(Run(h, s, events), digest) <==> Durable(s, digest) || Synced(h, s, events, digest)
  {
    hide Invariant, Step, Durable, Synced;
    SyncedRuns(h, s, events, digest);
    RunKeeps(h, s, events);
    SurvivesExactly(h, s, digest);
    SurvivesExactly(h, Run(h, s, events), digest);
  }

  lemma {:induction false} SyncedRuns(h: Digest, s: Store, events: seq<Event>, digest: nat)
    requires Invariant(h, s)
    ensures Target(digest) in Run(h, s, events).syncedDirectory <==> Target(digest) in s.syncedDirectory || Synced(h, s, events, digest)
  {
    hide Invariant, Step, Synced;
    if events == [] {
      NothingSynced(h, s, digest);
    } else {
      var before, e := events[..|events| - 1], events[|events| - 1];
      assert before + [e] == events;
      SyncedRuns(h, s, before, digest);
      RunKeeps(h, s, before);
      SyncStep(h, Run(h, s, before), e, digest);
      SyncedLonger(h, s, before, e, digest);
    }
  }

  lemma NothingSynced(h: Digest, s: Store, digest: nat)
    ensures !Synced(h, s, [], digest)
  {
  }

  /** It never links, and never syncs. */
  ghost predicate FoundIt(s: Store, p: nat) {
    && p in s.writers && !s.writers[p].linked
    && (s.writers[p].stage.CheckOpening? || s.writers[p].stage.Reading? || s.writers[p].stage.Reporting? || Ended(s.writers[p].stage))
    && (s.writers[p].stage.CheckOpening? ==> s.writers[p].stage.check == Existing)
    && (s.writers[p].stage.Reading? ==> s.writers[p].stage.check == Existing)
  }

  lemma FoundStays(h: Digest, s: Store, e: Event, p: nat)
    requires FoundIt(s, p)
    ensures FoundIt(Step(h, s, e), p)
  {
    match e {
      case Move(q, count) =>
        if q in s.writers && q != p {
          AdvanceOthers(h, s, q, count);
        }
        hide Clip;
      case _ =>
        hide Advance;
    }
  }

  lemma {:induction false} FoundRuns(h: Digest, s: Store, events: seq<Event>, p: nat)
    requires FoundIt(s, p)
    ensures FoundIt(Run(h, s, events), p)
  {
    hide FoundIt, Step;
    if events != [] {
      FoundRuns(h, s, events[..|events| - 1], p);
      FoundStays(h, Run(h, s, events[..|events| - 1]), events[|events| - 1], p);
    }
  }

  /** A put that inspects a place with the receipt in it does nothing for its durability:
      whenever it ends, the receipt is durable exactly when it was at the inspection, or
      some other put synced the directory since. */
  lemma PresentThenDurableExactly(h: Digest, s: Store, events: seq<Event>, p: nat, count: nat)
    requires Invariant(h, s) && p in s.writers && s.writers[p].stage == Start && Target(h(s.writers[p].input)) in s.directory
    ensures var inspected, digest := Step(h, s, Move(p, count)), h(s.writers[p].input);
      && (Durable(inspected, digest) <==> Durable(s, digest))
      && (Durable(Run(h, inspected, events), digest) <==> Durable(s, digest) || Synced(h, inspected, events, digest))
      && forall i | 0 <= i < |events| && SyncsName(h, inspected, events, i, digest) :: events[i].writer != p
  {
    hide Invariant, Durable, Synced, Run;
    var inspected, digest := Step(h, s, Move(p, count)), h(s.writers[p].input);
    Inspected(h, s, p, count);
    StepKeeps(h, s, Move(p, count));
    SurvivesExactly(h, s, digest);
    SurvivesExactly(h, inspected, digest);
    DurableExactly(h, inspected, events, digest);
    forall i | 0 <= i < |events| && SyncsName(h, inspected, events, i, digest)
      ensures events[i].writer != p
    {
      FoundRuns(h, inspected, events[..i], p);
    }
  }

  lemma Inspected(h: Digest, s: Store, p: nat, count: nat)
    requires Invariant(h, s) && p in s.writers && s.writers[p].stage == Start && Target(h(s.writers[p].input)) in s.directory
    ensures FoundIt(Step(h, s, Move(p, count)), p)
    ensures Step(h, s, Move(p, count)).syncedDirectory == s.syncedDirectory && Step(h, s, Move(p, count)).directory == s.directory
  {
    hide DirectoryOk;
    assert WriterOk(h, s, p);
  }

  // ----- runs that return 0 before the receipt is durable -----

  ghost function Empty(): (s: Store)
    ensures forall h: Digest :: Invariant(h, s)
  {
    Store(map[], map[], [], map[])
  }

  /** One writer among others, with nothing synced. */
  ghost function With(others: map<nat, Writer>, p: nat, w: Writer, directory: map<Name, nat>, files: seq<File>): Store {
    Store(directory, map[], files, others[p := w])
  }

  lemma Started(h: Digest, others: map<nat, Writer>, p: nat, w: Writer, directory: map<Name, nat>, files: seq<File>, n: nat)
    requires w.stage == Start
    ensures Step(h, With(others, p, w, directory, files), Move(p, n)) ==
      With(others, p, w.(stage := if Target(h(w.input)) in directory then CheckOpening(Existing) else Opening(0)), directory, files)
  {
  }

  lemma Opened(h: Digest, others: map<nat, Writer>, p: nat, w: Writer, directory: map<Name, nat>, files: seq<File>, n: nat)
    requires w.stage == Opening(0) && Temporary(h(w.input), w.pid, 0) !in directory
    ensures var name := Temporary(h(w.input), w.pid, 0);
      Step(h, With(others, p, w, directory, files), Move(p, n)) ==
        With(others, p, w.(stage := Writing(name, |files|, 0)), directory[name := |files|], files + [File([], false, p)])
  {
  }

  lemma Written(h: Digest, others: map<nat, Writer>, p: nat, w: Writer, directory: map<Name, nat>, files: seq<File>, name: Name, maker: nat)
    requires w.stage == Writing(name, |files|, 0) && w.input != []
    ensures Step(h, With(others, p, w, directory, files + [File([], false, maker)]), Move(p, |w.input|)) ==
      With(others, p, w.(stage := Syncing(name, |files|)), directory, files + [File(w.input, false, maker)])
  {
    assert [] + w.input[0..|w.input|] == w.input;
    assert (files + [File([], false, maker)])[|files| := File(w.input, false, maker)] == files + [File(w.input, false, maker)];
  }

  lemma SyncedFile(h: Digest, others: map<nat, Writer>, p: nat, w: Writer, directory: map<Name, nat>, files: seq<File>, name: Name, maker: nat, n: nat)
    requires w.stage == Syncing(name, |files|)
    ensures Step(h, With(others, p, w, directory, files + [File(w.input, false, maker)]), Move(p, n)) ==
      With(others, p, w.(stage := Closing(name, |files|, true)), directory, files + [File(w.input, true, maker)])
  {
    assert (files + [File(w.input, false, maker)])[|files| := File(w.input, true, maker)] == files + [File(w.input, true, maker)];
  }

  lemma Closed(h: Digest, others: map<nat, Writer>, p: nat, w: Writer, directory: map<Name, nat>, files: seq<File>, name: Name, inode: nat, n: nat)
    requires w.stage == Closing(name, inode, true)
    ensures Step(h, With(others, p, w, directory, files), Move(p, n)) == With(others, p, w.(stage := Linking(name, inode)), directory, files)
  {
  }

  lemma Linked(h: Digest, others: map<nat, Writer>, p: nat, w: Writer, directory: map<Name, nat>, files: seq<File>, name: Name, inode: nat, n: nat)
    requires w.stage == Linking(name, inode) && name in directory
    ensures var target := Target(h(w.input));
      Step(h, With(others, p, w, directory, files), Move(p, n)) ==
        if target in directory then With(others, p, w.(stage := UnlinkingRaced(name, inode)), directory, files)
        else With(others, p, w.(stage := UnlinkingPublished(name, inode), linked := true), directory[target := directory[name]], files)
  {
  }

  lemma UnlinkedRaced(h: Digest, others: map<nat, Writer>, p: nat, w: Writer, directory: map<Name, nat>, files: seq<File>, name: Name, inode: nat, n: nat)
    requires w.stage == UnlinkingRaced(name, inode)
    ensures Step(h, With(others, p, w, directory, files), Move(p, n)) == With(others, p, w.(stage := CheckOpening(Raced)), directory - {name}, files)
  {
  }

  /** Opening, reading in one call, and comparing the stored file. */
  lemma Checked(h: Digest, others: map<nat, Writer>, p: nat, w: Writer, directory: map<Name, nat>, files: seq<File>, check: Check)
    requires w.stage == CheckOpening(check) && 0 < |w.input| <= MAXIMUM_BYTES
    requires Target(h(w.input)) in directory && directory[Target(h(w.input))] < |files| && files[directory[Target(h(w.input))]].content == w.input
    ensures var s := With(others, p, w, directory, files); var m := Move(p, |w.input|);
      Step(h, Step(h, Step(h, s, m), m), m) == With(others, p, w.(stage := AfterCheck(check)), directory, files)
  {
    var inode, size := directory[Target(h(w.input))], |w.input|;
    var s, m := With(others, p, w, directory, files), Move(p, |w.input|);
    assert Step(h, s, m) == With(others, p, w.(stage := Reading(check, inode, size, [])), directory, files);
    assert [] + w.input[0..size] == w.input;
    assert Step(h, Step(h, s, m), m) == With(others, p, w.(stage := Reading(check, inode, size, w.input)), directory, files);
  }

  lemma Reported(h: Digest, others: map<nat, Writer>, p: nat, w: Writer, directory: map<Name, nat>, files: seq<File>, n: nat)
    requires w.stage == Reporting
    ensures Step(h, With(others, p, w, directory, files), Move(p, n)) == With(others, p, w.(stage := Done(0)), directory, files)
  {
  }

  lemma Longer(h: Digest, s: Store, events: seq<Event>, e: Event)
    ensures Run(h, s, events + [e]) == Step(h, Run(h, s, events), e)
  {
    assert (events + [e])[..|events|] == events;
  }

  lemma NoEvents(h: Digest, s: Store)
    ensures Run(h, s, []) == s
  {
  }

  /** A put that inspected an empty place goes on until its link has been tried. */
  lemma UpToLink(h: Digest, s: Store, events: seq<Event>, others: map<nat, Writer>, p: nat, w: Writer, directory: map<Name, nat>, files: seq<File>)
    returns (more: seq<Event>)
    requires Run(h, s, events) == With(others, p, w, directory, files)
    requires w.stage == Opening(0) && w.input != [] && Temporary(h(w.input), w.pid, 0) !in directory
    ensures var name, target := Temporary(h(w.input), w.pid, 0), Target(h(w.input));
      var named, all := directory[name := |files|], files + [File(w.input, true, p)];
      Run(h, s, events + more) ==
        if target in directory then With(others, p, w.(stage := UnlinkingRaced(name, |files|)), named, all)
        else With(others, p, w.(stage := UnlinkingPublished(name, |files|), linked := true), named[target := |files|], all)
  {
    hide Step, Run, With;
    var name, n := Temporary(h(w.input), w.pid, 0), |w.input|;
    var named, m := directory[name := |files|], Move(p, n);
    Opened(h, others, p, w, directory, files, n);
    Longer(h, s, events, m);
    Written(h, others, p, w.(stage := Writing(name, |files|, 0)), named, files, name, p);
    Longer(h, s, events + [m], m);
    SyncedFile(h, others, p, w.(stage := Syncing(name, |files|)), named, files, name, p, n);
    Longer(h, s, events + [m] + [m], m);
    Closed(h, others, p, w.(stage := Closing(name, |files|, true)), named, files + [File(w.input, true, p)], name, |files|, n);
    Longer(h, s, events + [m] + [m] + [m], m);
    Linked(h, others, p, w.(stage := Linking(name, |files|)), named, files + [File(w.input, true, p)], name, |files|, n);
    Longer(h, s, events + [m] + [m] + [m] + [m], m);
    more := [m, m, m, m, m];
    assert events + more == events + [m] + [m] + [m] + [m] + [m];
  }

  /** A check of a stored file that is the put's own input succeeds. */
  lemma ThroughCheck(h: Digest, s: Store, events: seq<Event>, others: map<nat, Writer>, p: nat, w: Writer,
                                        directory: map<Name, nat>, files: seq<File>, check: Check) returns (more: seq<Event>)
    requires Run(h, s, events) == With(others, p, w, directory, files) && w.stage == CheckOpening(check) && 0 < |w.input| <= MAXIMUM_BYTES
    requires Target(h(w.input)) in directory && directory[Target(h(w.input))] < |files| && files[directory[Target(h(w.input))]].content == w.input
    ensures Run(h, s, events + more) == With(others, p, w.(stage := AfterCheck(check)), directory, files)
  {
    hide Step, Run, With;
    var m := Move(p, |w.input|);
    Checked(h, others, p, w, directory, files, check);
    Longer(h, s, events, m);
    Longer(h, s, events + [m], m);
    Longer(h, s, events + [m] + [m], m);
    more := [m, m, m];
    assert events + more == events + [m] + [m] + [m];
  }

  ghost function Fresh(pid: nat, input: Bytes): Writer {
    Writer(pid, input, Start, false, false, 0)
  }

  lemma Spawned(h: Digest, others: map<nat, Writer>, directory: map<Name, nat>, files: seq<File>, p: nat, pid: nat, input: Bytes)
    requires p !in others && 0 < |input| <= MAXIMUM_BYTES
    ensures Step(h, Store(directory, map[], files, others), Spawn(p, pid, input)) == With(others, p, Fresh(pid, input), directory, files)
  {
  }

  /** Two writers in one map, whichever is in view. */
  lemma Swapped(p: nat, w: Writer, q: nat, v: Writer, directory: map<Name, nat>, files: seq<File>)
    requires p != q
    ensures With(map[q := v], p, w, directory, files) == With(map[p := w], q, v, directory, files)
  {
    assert map[q := v][p := w] == map[p := w][q := v];
  }

  ghost predicate ReturnsTooEarly(h: Digest, events: seq<Event>, input: Bytes) {
    var r := Run(h, Empty(), events);
    1 in r.writers && r.writers[1] == Fresh(1, input).(stage := Done(0)) && !Durable(r, h(input))
  }

  lemma NothingDurable(h: Digest, events: seq<Event>, others: map<nat, Writer>, p: nat, w: Writer, directory: map<Name, nat>, files: seq<File>, digest: nat)
    requires Run(h, Empty(), events) == With(others, p, w, directory, files)
    ensures !Durable(Run(h, Empty(), events), digest)
  {
    hide Invariant, Run, Durable;
    RunKeeps(h, Empty(), events);
    SurvivesExactly(h, Run(h, Empty(), events), digest);
  }

  /** For every input there is a run in which a put finds the receipt at its inspection
      and returns 0 although power loss may still take it: the publisher got no further
      than its link. */
  lemma FoundMayNotBeDurable(h: Digest, input: Bytes)
    requires 0 < |input| <= MAXIMUM_BYTES
    ensures exists events: seq<Event>, n: nat ::
      && ReturnsTooEarly(h, events, input) && n <= |events|
      && 1 in Run(h, Empty(), events[..n]).writers && Run(h, Empty(), events[..n]).writers[1].stage == CheckOpening(Existing)
  {
    NoEvents(h, Empty());
    hide Step, Run, Durable;
    var w, v := Fresh(0, input), Fresh(1, input);
    var name, target, m := Temporary(h(input), 0, 0), Target(h(input)), Move(1, |input|);
    Spawned(h, map[], map[], [], 0, 0, input);
    Longer(h, Empty(), [], Spawn(0, 0, input));
    Started(h, map[], 0, w, map[], [], 1);
    Longer(h, Empty(), [] + [Spawn(0, 0, input)], Move(0, 1));
    var first: seq<Event> := [] + [Spawn(0, 0, input)] + [Move(0, 1)];
    var more := UpToLink(h, Empty(), first, map[], 0, w.(stage := Opening(0)), map[], []);
    var publisher, directory, files := w.(stage := UnlinkingPublished(name, 0), linked := true), map[][name := 0][target := 0], [] + [File(input, true, 0)];
    var published := first + more;
    Spawned(h, map[][0 := publisher], directory, files, 1, 1, input);
    Longer(h, Empty(), published, Spawn(1, 1, input));
    Started(h, map[][0 := publisher], 1, v, directory, files, |input|);
    Longer(h, Empty(), published + [Spawn(1, 1, input)], m);
    var found := published + [Spawn(1, 1, input)] + [m];
    var rest := ThroughCheck(h, Empty(), found, map[][0 := publisher], 1, v.(stage := CheckOpening(Existing)), directory, files, Existing);
    Reported(h, map[][0 := publisher], 1, v.(stage := Reporting), directory, files, 1);
    Longer(h, Empty(), found + rest, Move(1, 1));
    var events := found + rest + [Move(1, 1)];
    NothingDurable(h, events, map[][0 := publisher], 1, v.(stage := Done(0)), directory, files, h(input));
    assert events[..|found|] == found;
  }

  /** Writer 1 has inspected an empty place when writer 0 publishes and stops. */
  lemma Outrun(h: Digest, input: Bytes) returns (events: seq<Event>)
    requires 0 < |input| <= MAXIMUM_BYTES
    ensures var name, target := Temporary(h(input), 0, 0), Target(h(input));
      var publisher := Fresh(0, input).(stage := UnlinkingPublished(name, 0), linked := true);
      Run(h, Empty(), events) ==
        With(map[0 := publisher], 1, Fresh(1, input).(stage := Opening(0)), map[name := 0][target := 0], [File(input, true, 0)])
  {
    NoEvents(h, Empty());
    hide Step, Run;
    var w, v := Fresh(0, input), Fresh(1, input);
    Spawned(h, map[], map[], [], 1, 1, input);
    Longer(h, Empty(), [], Spawn(1, 1, input));
    Started(h, map[], 1, v, map[], [], 1);
    Longer(h, Empty(), [] + [Spawn(1, 1, input)], Move(1, 1));
    var start: seq<Event> := [] + [Spawn(1, 1, input)] + [Move(1, 1)];
    var waiting := v.(stage := Opening(0));
    Spawned(h, map[][1 := waiting], map[], [], 0, 0, input);
    Longer(h, Empty(), start, Spawn(0, 0, input));
    Started(h, map[][1 := waiting], 0, w, map[], [], 1);
    Longer(h, Empty(), start + [Spawn(0, 0, input)], Move(0, 1));
    var first := start + [Spawn(0, 0, input)] + [Move(0, 1)];
    var more := UpToLink(h, Empty(), first, map[][1 := waiting], 0, w.(stage := Opening(0)), map[], []);
    events := first + more;
    var name, target := Temporary(h(input), 0, 0), Target(h(input));
    var publisher := w.(stage := UnlinkingPublished(name, 0), linked := true);
    assert map[][1 := waiting] == map[1 := waiting] && map[][name := 0] == map[name := 0] && [] + [File(input, true, 0)] == [File(input, true, 0)];
    Swapped(0, publisher, 1, waiting, map[name := 0][target := 0], [File(input, true, 0)]);
  }

  /** A put that meets the receipt at its link removes its temporary, checks twice and
      returns 0. */
  lemma AfterRace(h: Digest, events: seq<Event>, others: map<nat, Writer>, p: nat, w: Writer, directory: map<Name, nat>, files: seq<File>)
    returns (more: seq<Event>, left: map<Name, nat>)
    requires Run(h, Empty(), events) == With(others, p, w, directory, files) && w.stage.UnlinkingRaced? && 0 < |w.input| <= MAXIMUM_BYTES
    requires w.stage.temporary.Temporary? && Target(h(w.input)) in directory && directory[Target(h(w.input))] < |files|
    requires files[directory[Target(h(w.input))]].content == w.input
    ensures Run(h, Empty(), events + more) == With(others, p, w.(stage := Done(0)), left, files)
  {
    hide Step, Run, With;
    left := directory - {w.stage.temporary};
    UnlinkedRaced(h, others, p, w, directory, files, w.stage.temporary, w.stage.inode, 1);
    Longer(h, Empty(), events, Move(p, 1));
    var one := ThroughCheck(h, Empty(), events + [Move(p, 1)], others, p, w.(stage := CheckOpening(Raced)), left, files, Raced);
    var two := ThroughCheck(h, Empty(), events + [Move(p, 1)] + one, others, p, w.(stage := CheckOpening(Final)), left, files, Final);
    Reported(h, others, p, w.(stage := Reporting), left, files, 1);
    Longer(h, Empty(), events + [Move(p, 1)] + one + two, Move(p, 1));
    more := [Move(p, 1)] + one + two + [Move(p, 1)];
    assert events + more == events + [Move(p, 1)] + one + two + [Move(p, 1)];
  }

  /** For every input there is also a run in which a put inspects an empty place, meets
      the receipt at its link, and returns 0 too early. */
  lemma RacedMayNotBeDurable(h: Digest, input: Bytes)
    requires 0 < |input| <= MAXIMUM_BYTES
    ensures exists events: seq<Event>, n: nat ::
      && ReturnsTooEarly(h, events, input) && n <= |events|
      && 1 in Run(h, Empty(), events[..n]).writers && Run(h, Empty(), events[..n]).writers[1].stage.UnlinkingRaced?
  {
    hide Step, Run, Durable, With;
    var name, own, target := Temporary(h(input), 0, 0), Temporary(h(input), 1, 0), Target(h(input));
    var publisher, v := Fresh(0, input).(stage := UnlinkingPublished(name, 0), linked := true), Fresh(1, input);
    var directory, files := map[name := 0][target := 0], [File(input, true, 0)];
    var start := Outrun(h, input);
    var raced := UpToLink(h, Empty(), start, map[0 := publisher], 1, v.(stage := Opening(0)), directory, files);
    var met, here, all := start + raced, directory[own := 1], files + [File(input, true, 1)];
    InView(map[0 := publisher], 1, v.(stage := UnlinkingRaced(own, 1)), here, all);
    var rest, left := AfterRace(h, met, map[0 := publisher], 1, v.(stage := UnlinkingRaced(own, 1)), here, all);
    var events := met + rest;
    InView(map[0 := publisher], 1, v.(stage := Done(0)), left, all);
    NothingDurable(h, events, map[0 := publisher], 1, v.(stage := Done(0)), left, all, h(input));
    assert events[..|met|] == met;
  }

  lemma InView(others: map<nat, Writer>, p: nat, w: Writer, directory: map<Name, nat>, files: seq<File>)
    ensures var s := With(others, p, w, directory, files); p in s.writers && s.writers[p] == w
  {
  }
}
