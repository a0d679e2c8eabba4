/** The content-addressed receipt store: any number of writers publishing receipts by
    exclusive create, write, sync and link, interleaved step by step, with failing
    system calls, processes that stop anywhere, and power loss. */
module ReceiptStore {

  import opened Octets

  const MAXIMUM_BYTES: nat := 16 * 1024 * 1024
  const ATTEMPTS: nat := 16

  /** <digest>.receipt, and .<digest>.<pid>.<attempt>.tmp */
  datatype Name = Target(digest: nat) | Temporary(digest: nat, pid: nat, attempt: nat)

  /** The maker of a file is bookkeeping: no step depends on it. */
  datatype File = File(content: Bytes, synced: bool, maker: nat)

  /** Which call of the stored-file check this is; it decides the exit code. */
  datatype Check = Existing | Raced | Final

  datatype Stage =
    | Start
    | Opening(attempt: nat)
    | Writing(temporary: Name, inode: nat, offset: nat)
    | Syncing(temporary: Name, inode: nat)
    | Closing(temporary: Name, inode: nat, wrote: bool)
    | Linking(temporary: Name, inode: nat)
    | Discarding(temporary: Name, inode: nat, code: nat)
    | UnlinkingRaced(temporary: Name, inode: nat)
    | UnlinkingPublished(temporary: Name, inode: nat)
    | SyncingRoot
    | CheckOpening(check: Check)
    | Reading(check: Check, inode: nat, size: nat, got: Bytes)
    | Reporting
    | Done(code: nat)
    | Stopped

  /** linked, faulted and taken record what happened; no step depends on them. */
  datatype Writer = Writer(pid: nat, input: Bytes, stage: Stage, linked: bool, faulted: bool, taken: nat)

  datatype Store = Store(directory: map<Name, nat>, syncedDirectory: map<Name, nat>, files: seq<File>, writers: map<nat, Writer>)

  datatype Event =
    | Spawn(writer: nat, pid: nat, input: Bytes)
    | Move(writer: nat, count: nat)
    | Fault(writer: nat)
    | Stop(writer: nat)
    | PowerLoss(kept: set<Name>, rest: seq<Bytes>)

  type Digest = Bytes -> nat

  // ----- one step -----

  function Clip(count: nat, most: nat): (n: nat)
    requires most > 0
    ensures 1 <= n <= most
  {
    if count == 0 then 1 else if count > most then most else count
  }

  function CheckCode(check: Check): nat {
    if check == Raced then 73 else 65
  }

  function AfterCheck(check: Check): Stage {
    if check == Raced then CheckOpening(Final) else Reporting
  }

  function At(s: Store, p: nat, stage: Stage): Store
    requires p in s.writers
  {
    s.(writers := s.writers[p := s.writers[p].(stage := stage)])
  }

  function Unlink(s: Store, name: Name): Store {
    s.(directory := s.directory - {name})
  }

  /** The open with O_CREAT and O_EXCL. */
  function Open(h: Digest, s: Store, p: nat, attempt: nat): Store
    requires p in s.writers
  {
    var w := s.writers[p];
    var name := Temporary(h(w.input), w.pid, attempt);
    if name !in s.directory then
      At(s.(directory := s.directory[name := |s.files|], files := s.files + [File([], false, p)]), p, Writing(name, |s.files|, 0))
    else
      var next := if attempt + 1 < ATTEMPTS then Opening(attempt + 1) else Done(73);
      s.(writers := s.writers[p := w.(stage := next, taken := attempt + 1)])
  }

  /** One write call, which may be partial. */
  function Write(s: Store, p: nat, count: nat): Store
    requires p in s.writers && s.writers[p].stage.Writing?
  {
    var w := s.writers[p];
    var Writing(temporary, inode, offset) := w.stage;
    if inode < |s.files| && offset < |w.input| then
      var n := Clip(count, |w.input| - offset);
      var longer := s.files[inode].(content := s.files[inode].content + w.input[offset..offset + n]);
      At(s.(files := s.files[inode := longer]), p,
         if offset + n == |w.input| then Syncing(temporary, inode) else Writing(temporary, inode, offset + n))
    else s
  }

  function Sync(s: Store, p: nat): Store
    requires p in s.writers && s.writers[p].stage.Syncing?
  {
    var Syncing(temporary, inode) := s.writers[p].stage;
    if inode < |s.files| then
      At(s.(files := s.files[inode := s.files[inode].(synced := true)]), p, Closing(temporary, inode, true))
    else s
  }

  /** link fails when the target is there. */
  function Link(h: Digest, s: Store, p: nat): Store
    requires p in s.writers && s.writers[p].stage.Linking?
  {
    var w := s.writers[p];
    var Linking(temporary, inode) := w.stage;
    var target := Target(h(w.input));
    if target in s.directory then At(s, p, UnlinkingRaced(temporary, inode))
    else if temporary in s.directory then
      s.(directory := s.directory[target := s.directory[temporary]],
         writers := s.writers[p := w.(stage := UnlinkingPublished(temporary, inode), linked := true)])
    else s
  }

  function OpenStored(h: Digest, s: Store, p: nat): Store
    requires p in s.writers && s.writers[p].stage.CheckOpening?
  {
    var w := s.writers[p];
    var check, target := w.stage.check, Target(h(w.input));
    if target in s.directory && s.directory[target] < |s.files| && 0 < |s.files[s.directory[target]].content| <= MAXIMUM_BYTES then
      var inode := s.directory[target];
      At(s, p, Reading(check, inode, |s.files[inode].content|, []))
    else At(s, p, Done(CheckCode(check)))
  }

  /** One read call, or, once the declared size is there, the read past the end and the
      comparison. */
  function Read(h: Digest, s: Store, p: nat, count: nat): Store
    requires p in s.writers && s.writers[p].stage.Reading?
  {
    var w := s.writers[p];
    var Reading(check, inode, size, got) := w.stage;
    if inode < |s.files| then
      var content := s.files[inode].content;
      if |got| < size then
        if |got| < |content| then
          var most := (if size <= |content| then size else |content|) - |got|;
          At(s, p, Reading(check, inode, size, got + content[|got|..|got| + Clip(count, most)]))
        else At(s, p, Done(CheckCode(check)))
      else if |content| > size || h(got) != h(w.input) || got != w.input then At(s, p, Done(CheckCode(check)))
      else At(s, p, AfterCheck(check))
    else s
  }

  /** The next system call of a writer succeeds. */
  function Advance(h: Digest, s: Store, p: nat, count: nat): Store
    requires p in s.writers
  {
    var w := s.writers[p];
    match w.stage
    case Start => At(s, p, if Target(h(w.input)) in s.directory then CheckOpening(Existing) else Opening(0))
    case Opening(attempt) => Open(h, s, p, attempt)
    case Writing(_, _, _) => Write(s, p, count)
    case Syncing(_, _) => Sync(s, p)
    case Closing(temporary, inode, wrote) => At(s, p, if wrote then Linking(temporary, inode) else Discarding(temporary, inode, 74))
    case Linking(_, _) => Link(h, s, p)
    case Discarding(temporary, _, code) => At(Unlink(s, temporary), p, Done(code))
    case UnlinkingRaced(temporary, _) => At(Unlink(s, temporary), p, CheckOpening(Raced))
    case UnlinkingPublished(temporary, _) => At(Unlink(s, temporary), p, SyncingRoot)
    case SyncingRoot => At(s.(syncedDirectory := s.directory), p, CheckOpening(Final))
    case CheckOpening(_) => OpenStored(h, s, p)
    case Reading(_, _, _, _) => Read(h, s, p, count)
    case Reporting => At(s, p, Done(0))
    case Done(_) => s
    case Stopped => s
  }

  /** Where a writer goes when its next system call fails. */
  function AfterFault(stage: Stage): Stage {
    match stage
    case Start => Done(73)
    case Opening(_) => Done(73)
    case Writing(temporary, inode, _) => Closing(temporary, inode, false)
    case Syncing(temporary, inode) => Closing(temporary, inode, false)
    case Closing(temporary, inode, _) => Discarding(temporary, inode, 74)
    case Linking(temporary, inode) => Discarding(temporary, inode, 73)
    case Discarding(_, _, code) => Done(code)
    case UnlinkingRaced(_, _) => CheckOpening(Raced)
    case UnlinkingPublished(_, _) => Done(74)
    case SyncingRoot => Done(74)
    case CheckOpening(check) => Done(CheckCode(check))
    case Reading(check, _, _, _) => Done(CheckCode(check))
    case Reporting => Done(74)
    case Done(code) => Done(code)
    case Stopped => Stopped
  }

  function Fail(s: Store, p: nat): Store
    requires p in s.writers
  {
    s.(writers := s.writers[p := s.writers[p].(stage := AfterFault(s.writers[p].stage), faulted := true)])
  }

  /** After power loss a name is either as it was or as it was last synced, and a file
      that was not synced holds anything. */
  function Lose(s: Store, kept: set<Name>, rest: seq<Bytes>): Store {
    Store(
      map name | name in s.directory.Keys + s.syncedDirectory.Keys &&
        (if name in kept then name in s.directory else name in s.syncedDirectory) ::
        if name in kept then s.directory[name] else s.syncedDirectory[name],
      s.syncedDirectory,
      seq(|s.files|, i requires 0 <= i < |s.files| =>
        if s.files[i].synced || i >= |rest| then s.files[i] else s.files[i].(content := rest[i])),
      map p | p in s.writers :: s.writers[p].(stage := Stopped))
  }

  function Step(h: Digest, s: Store, e: Event): Store {
    match e
    case Spawn(p, pid, input) =>
      if p in s.writers || !(0 < |input| <= MAXIMUM_BYTES) then s
      else s.(writers := s.writers[p := Writer(pid, input, Start, false, false, 0)])
    case Move(p, count) => if p in s.writers then Advance(h, s, p, count) else s
    case Fault(p) => if p in s.writers then Fail(s, p) else s
    case Stop(p) => if p in s.writers then At(s, p, Stopped) else s
    case PowerLoss(kept, rest) => Lose(s, kept, rest)
  }

  function Run(h: Digest, s: Store, events: seq<Event>): Store {
    if events == [] then s
    else Step(h, Run(h, s, events[..|events| - 1]), events[|events| - 1])
  }

  // ----- the invariant -----

  /** A published receipt: complete, on disk, and what its name says. */
  ghost predicate Published(h: Digest, file: File, digest: nat) {
    file.synced && h(file.content) == digest && 0 < |file.content| <= MAXIMUM_BYTES
  }

  ghost predicate DirectoryOk(h: Digest, directory: map<Name, nat>, files: seq<File>) {
    forall name | name in directory :: directory[name] < |files| && (name.Target? ==> Published(h, files[directory[name]], name.digest))
  }

  /** The writer owns its temporary name and the file behind it. */
  ghost predicate Owns(h: Digest, s: Store, p: nat, temporary: Name, inode: nat)
    requires p in s.writers
  {
    && temporary.Temporary? && temporary in s.directory && s.directory[temporary] == inode < |s.files|
    && s.files[inode].maker == p
  }

  ghost predicate Stored(h: Digest, s: Store, input: Bytes) {
    Target(h(input)) in s.directory && s.directory[Target(h(input))] < |s.files|
    && s.files[s.directory[Target(h(input))]].content == input
  }

  ghost predicate ReadingOk(h: Digest, s: Store, w: Writer)
    requires w.stage.Reading?
  {
    var Reading(_, inode, size, got) := w.stage;
    && Target(h(w.input)) in s.directory && s.directory[Target(h(w.input))] == inode < |s.files|
    && s.files[inode].synced && size == |s.files[inode].content| <= MAXIMUM_BYTES && |got| <= size && got == s.files[inode].content[..|got|]
  }

  ghost predicate HasTarget(h: Digest, s: Store, w: Writer) {
    && Target(h(w.input)) in s.directory
    && (w.linked ==> Stored(h, s, w.input) && (w.stage.UnlinkingPublished? || w.stage.SyncingRoot? || Target(h(w.input)) in s.syncedDirectory))
  }

  ghost predicate WriterOk(h: Digest, s: Store, p: nat)
    requires p in s.writers
  {
    var w := s.writers[p];
    && 0 < |w.input| <= MAXIMUM_BYTES
    && match w.stage
       case Start => !w.linked && w.taken == 0
       case Opening(attempt) => !w.linked && attempt == w.taken < ATTEMPTS
       case Writing(temporary, inode, offset) =>
         !w.linked && Owns(h, s, p, temporary, inode) && offset < |w.input| && s.files[inode].content == w.input[..offset] && !s.files[inode].synced
       case Syncing(temporary, inode) =>
         !w.linked && Owns(h, s, p, temporary, inode) && s.files[inode].content == w.input && !s.files[inode].synced
       case Closing(temporary, inode, wrote) =>
         !w.linked && Owns(h, s, p, temporary, inode) && (wrote ==> s.files[inode].content == w.input && s.files[inode].synced) && (!wrote ==> w.faulted)
       case Linking(temporary, inode) =>
         !w.linked && Owns(h, s, p, temporary, inode) && s.files[inode].content == w.input && s.files[inode].synced
       case Discarding(temporary, inode, code) => Owns(h, s, p, temporary, inode) && w.faulted && code != 0
       case UnlinkingRaced(temporary, inode) => Owns(h, s, p, temporary, inode) && HasTarget(h, s, w) && !w.linked
       case UnlinkingPublished(temporary, inode) => Owns(h, s, p, temporary, inode) && HasTarget(h, s, w) && w.linked
       case SyncingRoot => HasTarget(h, s, w) && w.linked
       case CheckOpening(_) => HasTarget(h, s, w)
       case Reading(_, _, _, _) => HasTarget(h, s, w) && ReadingOk(h, s, w)
       case Reporting => HasTarget(h, s, w) && Stored(h, s, w.input)
       case Done(code) => code == 0 ==> HasTarget(h, s, w) && Stored(h, s, w.input)
       case Stopped => true
  }

  /** A receipt that is named on disk is named the same now. */
  ghost predicate SyncedWithin(s: Store) {
    forall name: Name | name in s.syncedDirectory && name.Target? :: name in s.directory && s.directory[name] == s.syncedDirectory[name]
  }

  ghost predicate Invariant(h: Digest, s: Store) {
    && DirectoryOk(h, s.directory, s.files) && DirectoryOk(h, s.syncedDirectory, s.files)
    && SyncedWithin(s)
    && forall p | p in s.writers :: WriterOk(h, s, p)
  }

  // ----- what a step of one writer leaves alone -----

  ghost predicate FilesKept(before: seq<File>, after: seq<File>, p: nat) {
    && |before| <= |after|
    && forall i | 0 <= i < |before| ::
      after[i].maker == before[i].maker && (before[i].synced || before[i].maker != p ==> after[i] == before[i])
  }

  ghost predicate NamesKept(s: Store, after: Store, p: nat) {
    && (forall name: Name | name in s.directory && (name.Target? || (s.directory[name] < |s.files| && s.files[s.directory[name]].maker != p)) ::
      name in after.directory && after.directory[name] == s.directory[name])
    && (forall name: Name | name in s.syncedDirectory && name.Target? ::
      name in after.syncedDirectory && after.syncedDirectory[name] == s.syncedDirectory[name])
  }

  ghost predicate WritersKept(s: Store, after: Store, p: nat) {
    && p in after.writers
    && forall q | q != p :: (q in s.writers <==> q in after.writers) && (q in s.writers ==> after.writers[q] == s.writers[q])
  }

  ghost predicate Kept(s: Store, after: Store, p: nat) {
    FilesKept(s.files, after.files, p) && NamesKept(s, after, p) && WritersKept(s, after, p)
  }

  lemma TargetKept(h: Digest, s: Store, after: Store, p: nat, input: Bytes)
    requires DirectoryOk(h, s.directory, s.files) && Kept(s, after, p) && Target(h(input)) in s.directory
    ensures Target(h(input)) in after.directory && after.directory[Target(h(input))] == s.directory[Target(h(input))] < |s.files| <= |after.files|
    ensures after.files[after.directory[Target(h(input))]] == s.files[s.directory[Target(h(input))]]
  {
    var target := Target(h(input));
    assert Published(h, s.files[s.directory[target]], h(input));
  }

  lemma OwnsKept(h: Digest, s: Store, after: Store, p: nat, q: nat, temporary: Name, inode: nat)
    requires Kept(s, after, p) && q != p && q in s.writers && q in after.writers && Owns(h, s, q, temporary, inode)
    ensures Owns(h, after, q, temporary, inode) && after.files[inode] == s.files[inode]
  {
  }

  lemma OtherWriterOk(h: Digest, s: Store, after: Store, p: nat, q: nat)
    requires DirectoryOk(h, s.directory, s.files) && Kept(s, after, p) && q != p && q in s.writers && WriterOk(h, s, q)
    ensures q in after.writers && WriterOk(h, after, q)
  {
    hide FilesKept, NamesKept, DirectoryOk, Owns;
    var w := s.writers[q];
    assert after.writers[q] == w;
    if Target(h(w.input)) in s.directory {
      TargetKept(h, s, after, p, w.input);
      SyncedTargetKept(s, after, p, w.input, h);
    }
    match w.stage {
      case Writing(temporary, inode, _) => OwnsKept(h, s, after, p, q, temporary, inode);
      case Syncing(temporary, inode) => OwnsKept(h, s, after, p, q, temporary, inode);
      case Closing(temporary, inode, _) => OwnsKept(h, s, after, p, q, temporary, inode);
      case Linking(temporary, inode) => OwnsKept(h, s, after, p, q, temporary, inode);
      case Discarding(temporary, inode, _) => OwnsKept(h, s, after, p, q, temporary, inode);
      case UnlinkingRaced(temporary, inode) => OwnsKept(h, s, after, p, q, temporary, inode);
      case UnlinkingPublished(temporary, inode) => OwnsKept(h, s, after, p, q, temporary, inode);
      case _ =>
    }
  }

  lemma SyncedTargetKept(s: Store, after: Store, p: nat, input: Bytes, h: Digest)
    requires Kept(s, after, p)
    ensures Target(h(input)) in s.syncedDirectory ==> Target(h(input)) in after.syncedDirectory
  {
  }

  /** What a step of writer p has to establish. */
  ghost predicate Good(h: Digest, s: Store, after: Store, p: nat) {
    && DirectoryOk(h, after.directory, after.files) && DirectoryOk(h, after.syncedDirectory, after.files)
    && SyncedWithin(after) && Kept(s, after, p) && WriterOk(h, after, p)
  }

  lemma GoodKeeps(h: Digest, s: Store, after: Store, p: nat)
    requires Invariant(h, s) && Good(h, s, after, p)
    ensures Invariant(h, after)
  {
    hide WriterOk, DirectoryOk;
    forall q | q in after.writers
      ensures WriterOk(h, after, q)
    {
      if q != p {
        assert q in s.writers;
        OtherWriterOk(h, s, after, p, q);
      }
    }
  }

  // ----- each step -----

  /** A step that only moves the writer on. */
  lemma OnlyStage(h: Digest, s: Store, p: nat, w: Writer)
    requires Invariant(h, s) && p in s.writers
    requires WriterOk(h, s.(writers := s.writers[p := w]), p)
    ensures Good(h, s, s.(writers := s.writers[p := w]), p)
  {
    hide WriterOk, DirectoryOk;
  }

  lemma OpenGood(h: Digest, s: Store, p: nat)
    requires Invariant(h, s) && p in s.writers && s.writers[p].stage.Opening?
    ensures Good(h, s, Open(h, s, p, s.writers[p].stage.attempt), p)
  {
    var w := s.writers[p];
    var attempt := w.stage.attempt;
    assert WriterOk(h, s, p);
    var name := Temporary(h(w.input), w.pid, attempt);
    var after := Open(h, s, p, attempt);
    if name in s.directory {
      OnlyStage(h, s, p, after.writers[p]);
    } else {
      NewFileOk(h, s.syncedDirectory, s.files, File([], false, p));
      NewFileOk(h, s.directory, s.files, File([], false, p));
    }
  }

  lemma NewFileOk(h: Digest, directory: map<Name, nat>, files: seq<File>, file: File)
    requires DirectoryOk(h, directory, files)
    ensures DirectoryOk(h, directory, files + [file])
  {
  }

  /** Changing a file that is not synced yet cannot touch a published receipt. */
  lemma UnsyncedFileOk(h: Digest, directory: map<Name, nat>, files: seq<File>, inode: nat, file: File)
    requires DirectoryOk(h, directory, files) && inode < |files| && !files[inode].synced
    ensures DirectoryOk(h, directory, files[inode := file])
  {
    forall name | name in directory
      ensures directory[name] < |files| && (name.Target? ==> Published(h, files[inode := file][directory[name]], name.digest))
    {
    }
  }

  lemma WriteGood(h: Digest, s: Store, p: nat, count: nat)
    requires Invariant(h, s) && p in s.writers && s.writers[p].stage.Writing?
    ensures Good(h, s, Write(s, p, count), p)
  {
    hide DirectoryOk;
    var w := s.writers[p];
    var Writing(temporary, inode, offset) := w.stage;
    assert WriterOk(h, s, p);
    var n := Clip(count, |w.input| - offset);
    assert w.input[..offset] + w.input[offset..offset + n] == w.input[..offset + n];
    assert w.input[..|w.input|] == w.input;
    var longer := s.files[inode].(content := s.files[inode].content + w.input[offset..offset + n]);
    UnsyncedFileOk(h, s.directory, s.files, inode, longer);
    UnsyncedFileOk(h, s.syncedDirectory, s.files, inode, longer);
  }

  lemma SyncGood(h: Digest, s: Store, p: nat)
    requires Invariant(h, s) && p in s.writers && s.writers[p].stage.Syncing?
    ensures Good(h, s, Sync(s, p), p)
  {
    hide DirectoryOk;
    var Syncing(temporary, inode) := s.writers[p].stage;
    assert WriterOk(h, s, p);
    UnsyncedFileOk(h, s.directory, s.files, inode, s.files[inode].(synced := true));
    UnsyncedFileOk(h, s.syncedDirectory, s.files, inode, s.files[inode].(synced := true));
  }

  lemma LinkGood(h: Digest, s: Store, p: nat)
    requires Invariant(h, s) && p in s.writers && s.writers[p].stage.Linking?
    ensures Good(h, s, Link(h, s, p), p)
  {
    var w := s.writers[p];
    var target := Target(h(w.input));
    assert WriterOk(h, s, p);
    var after := Link(h, s, p);
    if target in s.directory {
      OnlyStage(h, s, p, after.writers[p]);
    } else {
      assert Published(h, s.files[w.stage.inode], h(w.input));
    }
  }

  /** Removing the writer's own temporary name. */
  lemma UnlinkGood(h: Digest, s: Store, p: nat, temporary: Name, inode: nat, stage: Stage)
    requires Invariant(h, s) && p in s.writers && Owns(h, s, p, temporary, inode)
    requires WriterOk(h, At(Unlink(s, temporary), p, stage), p)
    ensures Good(h, s, At(Unlink(s, temporary), p, stage), p)
  {
    hide WriterOk;
  }

  lemma SyncRootGood(h: Digest, s: Store, p: nat)
    requires Invariant(h, s) && p in s.writers && s.writers[p].stage.SyncingRoot?
    ensures Good(h, s, Advance(h, s, p, 0), p)
  {
    hide DirectoryOk;
    assert WriterOk(h, s, p);
  }

  lemma OpenStoredGood(h: Digest, s: Store, p: nat)
    requires Invariant(h, s) && p in s.writers && s.writers[p].stage.CheckOpening?
    ensures Good(h, s, OpenStored(h, s, p), p)
  {
    hide DirectoryOk;
    assert WriterOk(h, s, p);
    PublishedTarget(h, s, s.writers[p].input);
    OnlyStage(h, s, p, OpenStored(h, s, p).writers[p]);
  }

  lemma PublishedTarget(h: Digest, s: Store, input: Bytes)
    requires Invariant(h, s) && Target(h(input)) in s.directory
    ensures var inode := s.directory[Target(h(input))]; inode < |s.files| && Published(h, s.files[inode], h(input))
  {
    hide WriterOk;
  }

  lemma ReadGood(h: Digest, s: Store, p: nat, count: nat)
    requires Invariant(h, s) && p in s.writers && s.writers[p].stage.Reading?
    ensures Good(h, s, Read(h, s, p, count), p)
  {
    hide DirectoryOk;
    assert WriterOk(h, s, p);
    var Reading(check, inode, size, got) := s.writers[p].stage;
    var content := s.files[inode].content;
    if |got| < size {
      var n := Clip(count, size - |got|);
      assert content[..|got|] + content[|got|..|got| + n] == content[..|got| + n];
    } else {
      assert content[..|got|] == content;
    }
    OnlyStage(h, s, p, Read(h, s, p, count).writers[p]);
  }

  lemma AdvanceGood(h: Digest, s: Store, p: nat, count: nat)
    requires Invariant(h, s) && p in s.writers
    ensures Good(h, s, Advance(h, s, p, count), p)
  {
    hide DirectoryOk, Good, Invariant;
    var w := s.writers[p];
    WriterIsOk(h, s, p);
    var after := Advance(h, s, p, count);
    match w.stage {
      case Opening(_) => OpenGood(h, s, p);
      case Writing(_, _, _) => WriteGood(h, s, p, count);
      case Syncing(_, _) => SyncGood(h, s, p);
      case Linking(_, _) => LinkGood(h, s, p);
      case Discarding(temporary, inode, code) => UnlinkGood(h, s, p, temporary, inode, Done(code));
      case UnlinkingRaced(temporary, inode) => UnlinkGood(h, s, p, temporary, inode, CheckOpening(Raced));
      case UnlinkingPublished(temporary, inode) => UnlinkGood(h, s, p, temporary, inode, SyncingRoot);
      case SyncingRoot => SyncRootGood(h, s, p);
      case CheckOpening(_) => OpenStoredGood(h, s, p);
      case Reading(_, _, _, _) => ReadGood(h, s, p, count);
      case _ =>
        SameWriters(s, p);
        OnlyStage(h, s, p, after.writers[p]);
    }
  }

  lemma SameWriters(s: Store, p: nat)
    requires p in s.writers
    ensures s.(writers := s.writers[p := s.writers[p]]) == s
  {
    assert s.writers[p := s.writers[p]] == s.writers;
  }

  lemma WriterIsOk(h: Digest, s: Store, p: nat)
    requires Invariant(h, s) && p in s.writers
    ensures WriterOk(h, s, p)
  {
    hide WriterOk, DirectoryOk;
  }

  lemma FailGood(h: Digest, s: Store, p: nat)
    requires Invariant(h, s) && p in s.writers
    ensures Good(h, s, Fail(s, p), p)
  {
    hide DirectoryOk, Good, Invariant;
    WriterIsOk(h, s, p);
    OnlyStage(h, s, p, Fail(s, p).writers[p]);
  }

  lemma SpawnKeeps(h: Digest, s: Store, p: nat, w: Writer)
    requires Invariant(h, s) && p !in s.writers && 0 < |w.input| <= MAXIMUM_BYTES && w.stage == Start && !w.linked && w.taken == 0
    ensures Invariant(h, s.(writers := s.writers[p := w]))
  {
    hide DirectoryOk;
    var after := s.(writers := s.writers[p := w]);
    forall q | q in after.writers
      ensures WriterOk(h, after, q)
    {
      if q != p {
        assert WriterOk(h, s, q);
      }
    }
  }

  lemma LoseKeeps(h: Digest, s: Store, kept: set<Name>, rest: seq<Bytes>)
    requires Invariant(h, s)
    ensures Invariant(h, Lose(s, kept, rest))
  {
    var after := Lose(s, kept, rest);
    LoseDirectory(h, s, kept, rest, s.directory);
    LoseDirectory(h, s, kept, rest, s.syncedDirectory);
    forall q | q in after.writers
      ensures WriterOk(h, after, q)
    {
      assert WriterOk(h, s, q);
    }
  }

  lemma LoseDirectory(h: Digest, s: Store, kept: set<Name>, rest: seq<Bytes>, directory: map<Name, nat>)
    requires DirectoryOk(h, directory, s.files)
    ensures DirectoryOk(h, directory, Lose(s, kept, rest).files)
  {
  }

  lemma StepKeeps(h: Digest, s: Store, e: Event)
    requires Invariant(h, s)
    ensures Invariant(h, Step(h, s, e))
  {
    hide DirectoryOk, Good, Invariant, WriterOk;
    match e {
      case Spawn(p, pid, input) =>
        if p !in s.writers && 0 < |input| <= MAXIMUM_BYTES {
          SpawnKeeps(h, s, p, Writer(pid, input, Start, false, false, 0));
        }
      case Move(p, count) =>
        if p in s.writers {
          AdvanceGood(h, s, p, count);
          GoodKeeps(h, s, Advance(h, s, p, count), p);
        }
      case Fault(p) =>
        if p in s.writers {
          FailGood(h, s, p);
          GoodKeeps(h, s, Fail(s, p), p);
        }
      case Stop(p) =>
        if p in s.writers {
          StopGood(h, s, p);
          GoodKeeps(h, s, At(s, p, Stopped), p);
        }
      case PowerLoss(kept, rest) => LoseKeeps(h, s, kept, rest);
    }
  }

  lemma StopGood(h: Digest, s: Store, p: nat)
    requires Invariant(h, s) && p in s.writers
    ensures Good(h, s, At(s, p, Stopped), p)
  {
    hide DirectoryOk, Good, Invariant;
    WriterIsOk(h, s, p);
    OnlyStage(h, s, p, At(s, p, Stopped).writers[p]);
  }

  // ----- over every run -----

  /** The invariant holds whatever happens, in any order. */
  lemma {:induction false} RunKeeps(h: Digest, s: Store, events: seq<Event>)
    requires Invariant(h, s)
    ensures Invariant(h, Run(h, s, events))
  {
    hide Invariant, Step;
    if events != [] {
      RunKeeps(h, s, events[..|events| - 1]);
      StepKeeps(h, Run(h, s, events[..|events| - 1]), events[|events| - 1]);
    }
  }

  /** A file called <digest>.receipt always holds a complete receipt with that digest. */
  lemma PublishedIsComplete(h: Digest, s: Store, events: seq<Event>, digest: nat)
    requires Invariant(h, s)
    ensures var r := Run(h, s, events);
      Target(digest) in r.directory ==>
        r.directory[Target(digest)] < |r.files| && Published(h, r.files[r.directory[Target(digest)]], digest)
  {
    hide WriterOk;
    RunKeeps(h, s, events);
  }

  /** What a receipt name stands for: nothing, or its bytes. */
  ghost function Receipt(h: Digest, s: Store, digest: nat): (content: Bytes)
    requires Invariant(h, s)
  {
    if Target(digest) in s.directory then s.files[s.directory[Target(digest)]].content else []
  }

  lemma StepImmutable(h: Digest, s: Store, e: Event, digest: nat)
    requires Invariant(h, s) && Target(digest) in s.directory
    ensures Invariant(h, Step(h, s, e))
    ensures Target(digest) in Step(h, s, e).directory ==> Receipt(h, Step(h, s, e), digest) == Receipt(h, s, digest)
    ensures !e.PowerLoss? ==> Target(digest) in Step(h, s, e).directory
    ensures e.PowerLoss? && Target(digest) in s.syncedDirectory ==> Target(digest) in Step(h, s, e).directory
  {
    hide WriterOk;
    StepKeeps(h, s, e);
    assert Published(h, s.files[s.directory[Target(digest)]], digest);
    match e {
      case Move(p, count) =>
        if p in s.writers {
          AdvanceGood(h, s, p, count);
        }
      case Fault(p) =>
      case Spawn(_, _, _) =>
      case Stop(_) =>
      case PowerLoss(_, _) =>
    }
  }

  ghost predicate NoPowerLoss(events: seq<Event>) {
    forall i | 0 <= i < |events| :: !events[i].PowerLoss?
  }

  /** Once there, a receipt stays there and never changes, as long as power lasts. */
  lemma {:induction false} PublishedIsImmutable(h: Digest, s: Store, events: seq<Event>, digest: nat)
    requires Invariant(h, s) && Target(digest) in s.directory && NoPowerLoss(events)
    ensures Invariant(h, Run(h, s, events))
    ensures Target(digest) in Run(h, s, events).directory && Receipt(h, Run(h, s, events), digest) == Receipt(h, s, digest)
  {
    hide Invariant, Step, Receipt;
    RunKeeps(h, s, events);
    if events != [] {
      PublishedIsImmutable(h, s, events[..|events| - 1], digest);
      StepImmutable(h, Run(h, s, events[..|events| - 1]), events[|events| - 1], digest);
    }
  }

  /** A put that returned 0 has its input stored under its digest. */
  lemma SuccessMeansStored(h: Digest, s: Store, events: seq<Event>, p: nat)
    requires Invariant(h, s)
    ensures var r := Run(h, s, events);
      p in r.writers && r.writers[p].stage == Done(0) ==> Stored(h, r, r.writers[p].input)
  {
    hide DirectoryOk;
    RunKeeps(h, s, events);
    var r := Run(h, s, events);
    if p in r.writers {
      assert WriterOk(h, r, p);
    }
  }

  // ----- racing writers succeed -----

  ghost predicate NoCollision(h: Digest, input: Bytes) {
    forall other: Bytes :: h(other) == h(input) ==> other == input
  }

  /** How an undisturbed put ends: well, unless every temporary name was taken. */
  ghost predicate EndsWell(h: Digest, w: Writer) {
    && w.taken <= ATTEMPTS
    && (w.taken == ATTEMPTS ==> w.stage == Done(73) || w.stage.Stopped?)
    && (w.stage.Done? && !w.faulted && NoCollision(h, w.input) ==> w.stage.code == if w.taken == ATTEMPTS then 73 else 0)
  }

  lemma ReadEndsWell(h: Digest, s: Store, p: nat, count: nat)
    requires Invariant(h, s) && p in s.writers && s.writers[p].stage.Reading? && EndsWell(h, s.writers[p])
    ensures EndsWell(h, Read(h, s, p, count).writers[p])
  {
    hide DirectoryOk, NoCollision;
    assert WriterOk(h, s, p);
    var input, inode := s.writers[p].input, s.writers[p].stage.inode;
    PublishedTarget(h, s, input);
    var content := s.files[inode].content;
    assert content[..|content|] == content;
    if NoCollision(h, input) {
      NoCollisionAt(h, input, content);
    }
  }

  lemma NoCollisionAt(h: Digest, input: Bytes, other: Bytes)
    requires NoCollision(h, input) && h(other) == h(input)
    ensures other == input
  {
  }

  lemma OpenStoredEndsWell(h: Digest, s: Store, p: nat)
    requires Invariant(h, s) && p in s.writers && s.writers[p].stage.CheckOpening? && EndsWell(h, s.writers[p])
    ensures EndsWell(h, OpenStored(h, s, p).writers[p])
  {
    hide DirectoryOk, NoCollision;
    assert WriterOk(h, s, p);
    PublishedTarget(h, s, s.writers[p].input);
  }

  lemma AdvanceEndsWell(h: Digest, s: Store, p: nat, count: nat)
    requires Invariant(h, s) && p in s.writers && EndsWell(h, s.writers[p])
    ensures p in Advance(h, s, p, count).writers && EndsWell(h, Advance(h, s, p, count).writers[p])
    ensures var w, after := s.writers[p], Advance(h, s, p, count).writers[p];
      after.input == w.input && after.pid == w.pid
      && (after.taken != w.taken ==> after.taken == w.taken + 1 && Temporary(h(w.input), w.pid, w.taken) in s.directory)
  {
    hide DirectoryOk, NoCollision, Invariant, Clip;
    WriterIsOk(h, s, p);
    var w := s.writers[p];
    match w.stage {
      case CheckOpening(_) => OpenStoredEndsWell(h, s, p);
      case Reading(_, _, _, _) => ReadEndsWell(h, s, p, count);
      case _ =>
    }
  }

  lemma StepEndsWell(h: Digest, s: Store, e: Event, p: nat)
    requires Invariant(h, s) && p in Step(h, s, e).writers
    requires p in s.writers ==> EndsWell(h, s.writers[p])
    ensures EndsWell(h, Step(h, s, e).writers[p])
    ensures var after := Step(h, s, e).writers[p];
      if p !in s.writers then after.taken == 0
      else
        var w := s.writers[p];
        && after.input == w.input && after.pid == w.pid
        && (after.taken != w.taken ==> after.taken == w.taken + 1 && Temporary(h(w.input), w.pid, w.taken) in s.directory)
  {
    hide DirectoryOk, NoCollision, Invariant, Clip;
    match e {
      case Move(q, count) =>
        if q in s.writers {
          if q == p {
            AdvanceEndsWell(h, s, p, count);
          } else {
            AdvanceOther(h, s, q, count, p);
          }
        }
      case _ =>
    }
  }

  lemma AdvanceOther(h: Digest, s: Store, q: nat, count: nat, p: nat)
    requires Invariant(h, s) && q in s.writers && p != q
    ensures p in Advance(h, s, q, count).writers ==> p in s.writers && Advance(h, s, q, count).writers[p] == s.writers[p]
  {
    hide DirectoryOk, Invariant, Advance, WriterOk, FilesKept, NamesKept;
    AdvanceGood(h, s, q, count);
  }

  /** Some state of the run had the name. */
  ghost predicate Seen(h: Digest, s: Store, events: seq<Event>, name: Name) {
    exists n: nat :: n <= |events| && name in Run(h, s, events[..n]).directory
  }

  lemma SeenLonger(h: Digest, s: Store, events: seq<Event>, e: Event, name: Name)
    requires Seen(h, s, events, name)
    ensures Seen(h, s, events + [e], name)
  {
    hide Run;
    var n: nat :| n <= |events| && name in Run(h, s, events[..n]).directory;
    assert (events + [e])[..n] == events[..n];
  }

  lemma SeenNow(h: Digest, s: Store, events: seq<Event>, e: Event, name: Name)
    requires name in Run(h, s, events).directory
    ensures Seen(h, s, events + [e], name)
  {
    hide Run;
    assert (events + [e])[..|events|] == events;
  }

  lemma {:induction false} RunEndsWell(h: Digest, s: Store, events: seq<Event>, p: nat)
    requires Invariant(h, s) && s.writers == map[] && p in Run(h, s, events).writers
    ensures Invariant(h, Run(h, s, events))
    ensures var w := Run(h, s, events).writers[p];
      EndsWell(h, w) && forall j: nat | j < w.taken :: Seen(h, s, events, Temporary(h(w.input), w.pid, j))
  {
    hide Invariant, Step, EndsWell, Seen;
    RunKeeps(h, s, events);
    if events != [] {
      var before, e := events[..|events| - 1], events[|events| - 1];
      var last := Run(h, s, before);
      assert before + [e] == events;
      RunKeeps(h, s, before);
      if p in last.writers {
        RunEndsWell(h, s, before, p);
      }
      StepEndsWell(h, last, e, p);
      var w := Step(h, last, e).writers[p];
      forall j: nat | j < w.taken
        ensures Seen(h, s, events, Temporary(h(w.input), w.pid, j))
      {
        if j < last.writers[p].taken {
          SeenLonger(h, s, before, e, Temporary(h(w.input), w.pid, j));
        } else {
          SeenNow(h, s, before, e, Temporary(h(w.input), w.pid, j));
        }
      }
    }
  }

  /** A put with no failing call and no digest collision ends with 0, whoever races it,
      exactly unless it found all its temporary names taken. */
  lemma RacersSucceed(h: Digest, s: Store, events: seq<Event>, p: nat)
    requires Invariant(h, s) && s.writers == map[] && p in Run(h, s, events).writers
    requires var w := Run(h, s, events).writers[p]; w.stage.Done? && !w.faulted && NoCollision(h, w.input)
    ensures var w := Run(h, s, events).writers[p];
      && w.stage.code == (if w.taken == ATTEMPTS then 73 else 0)
      && (w.stage.code != 0 ==> forall attempt: nat | attempt < ATTEMPTS :: Seen(h, s, events, Temporary(h(w.input), w.pid, attempt)))
  {
    hide Run, Seen, NoCollision;
    RunEndsWell(h, s, events, p);
  }

  // ----- every put ends -----

  function CheckRank(check: Check): nat {
    if check == Raced then MAXIMUM_BYTES + 4 else 1
  }

  /** How many more steps a put can take. */
  function Rank(w: Writer): nat {
    var m := MAXIMUM_BYTES;
    match w.stage
    case Done(_) => 0
    case Stopped => 0
    case Reporting => 1
    case Reading(check, _, size, got) => CheckRank(check) + 1 + if |got| < size then size - |got| else 0
    case CheckOpening(check) => CheckRank(check) + m + 2
    case SyncingRoot => m + 4
    case UnlinkingPublished(_, _) => m + 5
    case UnlinkingRaced(_, _) => 2 * m + 7
    case Discarding(_, _, _) => 1
    case Linking(_, _) => 2 * m + 8
    case Closing(_, _, _) => 2 * m + 9
    case Syncing(_, _) => 2 * m + 10
    case Writing(_, _, offset) => 2 * m + 11 + if offset < |w.input| then |w.input| - offset else 0
    case Opening(attempt) => 3 * m + 12 + if attempt < ATTEMPTS then ATTEMPTS - attempt else 0
    case Start => 3 * m + 14 + ATTEMPTS
  }

  lemma ReadRank(h: Digest, s: Store, p: nat, count: nat)
    requires p in s.writers && s.writers[p].stage.Reading? && WriterOk(h, s, p)
    ensures p in Read(h, s, p, count).writers && Rank(Read(h, s, p, count).writers[p]) < Rank(s.writers[p])
  {
    hide HasTarget;
  }

  lemma OpenStoredRank(h: Digest, s: Store, p: nat)
    requires p in s.writers && s.writers[p].stage.CheckOpening?
    ensures p in OpenStored(h, s, p).writers && Rank(OpenStored(h, s, p).writers[p]) < Rank(s.writers[p])
  {
  }

  lemma WriteRank(h: Digest, s: Store, p: nat, count: nat)
    requires p in s.writers && s.writers[p].stage.Writing? && WriterOk(h, s, p)
    ensures p in Write(s, p, count).writers && Rank(Write(s, p, count).writers[p]) < Rank(s.writers[p])
  {
  }

  lemma OpenRank(h: Digest, s: Store, p: nat)
    requires p in s.writers && s.writers[p].stage.Opening? && WriterOk(h, s, p)
    ensures var after := Open(h, s, p, s.writers[p].stage.attempt);
      p in after.writers && Rank(after.writers[p]) < Rank(s.writers[p])
  {
  }

  lemma FailRank(h: Digest, s: Store, p: nat)
    requires p in s.writers && WriterOk(h, s, p) && !s.writers[p].stage.Done? && !s.writers[p].stage.Stopped?
    ensures Rank(Fail(s, p).writers[p]) < Rank(s.writers[p])
  {
    hide HasTarget, Owns;
  }

  lemma SyncRank(h: Digest, s: Store, p: nat)
    requires p in s.writers && s.writers[p].stage.Syncing? && WriterOk(h, s, p)
    ensures p in Sync(s, p).writers && Rank(Sync(s, p).writers[p]) < Rank(s.writers[p])
  {
  }

  lemma LinkRank(h: Digest, s: Store, p: nat)
    requires p in s.writers && s.writers[p].stage.Linking? && WriterOk(h, s, p)
    ensures p in Link(h, s, p).writers && Rank(Link(h, s, p).writers[p]) < Rank(s.writers[p])
  {
  }

  lemma RankBound(h: Digest, s: Store, p: nat)
    requires p in s.writers && WriterOk(h, s, p)
    ensures Rank(s.writers[p]) <= 3 * MAXIMUM_BYTES + 14 + ATTEMPTS
  {
    hide HasTarget, Owns;
  }

  /** Every step of a live put, failing or not, brings it nearer to its end. */
  lemma StepsRunOut(h: Digest, s: Store, p: nat, count: nat)
    requires Invariant(h, s) && p in s.writers && !s.writers[p].stage.Done? && !s.writers[p].stage.Stopped?
    ensures var w := s.writers[p];
      && Rank(w) <= 3 * MAXIMUM_BYTES + 14 + ATTEMPTS
      && p in Advance(h, s, p, count).writers && Rank(Advance(h, s, p, count).writers[p]) < Rank(w)
      && Rank(Fail(s, p).writers[p]) < Rank(w)
  {
    hide DirectoryOk, Invariant, Read, OpenStored, Write, Open, Sync, Link, Fail, WriterOk;
    WriterIsOk(h, s, p);
    RankBound(h, s, p);
    FailRank(h, s, p);
    match s.writers[p].stage {
      case Reading(_, _, _, _) => ReadRank(h, s, p, count);
      case CheckOpening(_) => OpenStoredRank(h, s, p);
      case Writing(_, _, _) => WriteRank(h, s, p, count);
      case Opening(_) => OpenRank(h, s, p);
      case Syncing(_, _) => SyncRank(h, s, p);
      case Linking(_, _) => LinkRank(h, s, p);
      case _ =>
    }
  }
}
