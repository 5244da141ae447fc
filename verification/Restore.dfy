/**
 The crash-safe backup restore: a write-ahead journal drives the swap of the live
 data directory for the contents of an archive. Every file-system call may work, throw,
 or be the point at which the process dies, and after a death the next boot runs the
 same code again.
 */
module Restore {
  import opened Wrappers

  type Name = string

  datatype Content = EmptyDirectory | Tree(id: nat) | Keyring(id: nat)

  /** A directory entry. A recursive delete that was cut short leaves its entry damaged. */
  datatype Entry = Intact(content: Content) | Damaged

  type Directory = map<Name, Entry>

  datatype Phase = Moving | Installing | Committed

  datatype Journal = Journal(phase: Phase, incoming: seq<Name>, restored: seq<Name>)

  /**
   What survives a crash: the top level of the data directory, the two work directories,
   the journal, and the three marker files (restore pending, restore failed, agent paused).
   */
  datatype Disk = Disk(
    live: Directory,
    stage: Option<Directory>,
    rollback: Option<Directory>,
    journal: Option<Journal>,
    pending: bool,
    failed: bool,
    paused: bool)

  /**
   A backup archive: its top-level members, the verdicts of the checks that are not modelled, and the
   keyring file that merging its keyring makes.
   */
  datatype Archive = Archive(
    members: map<Name, Content>, genuine: bool, databaseSound: bool, keyringSound: bool, mergedKeyring: nat)

  const ARCHIVE_KEYRING: Name := ".master-keyring.json"

  const PRESERVED: set<Name> := {
    "backups", "updates", "runtime-agent", "app-runtime",
    ".master-keyring.json", ".jwt-secret", ".setup-token",
    ".restore-work", ".restore-pending.json", ".restore-failed.json"}

  /** The directories that loading the configuration recreates, empty, on every boot. */
  const STANDARD: set<Name> := {
    "sites", "plugins", "certbot", "snapshots", "releases", "previews",
    "backups", "updates", "app-runtime", "site-data", "tmp"}

  function Decimal(n: nat): string {
    if n < 10 then [('0' as int + n) as char] else Decimal(n / 10) + [('0' as int + n % 10) as char]
  }

  /** The temporary file, beside the keyring, through which the process `pid` writes it. */
  function Temporary(pid: nat): (name: Name)
    ensures name !in PRESERVED && name !in STANDARD
  {
    var name := ARCHIVE_KEYRING + "." + Decimal(pid) + ".tmp";
    assert name[1] == 'm' && |name| > |ARCHIVE_KEYRING|;
    name
  }

  /** The name is that of the temporary keyring file of one of these processes. */
  predicate IsTemporary(name: Name, writers: set<nat>) {
    exists pid :: pid in writers && name == Temporary(pid)
  }

  /** What writing a keyring can leave in its temporary file. */
  predicate Residue(entry: Entry) {
    entry == Damaged || (entry.Intact? && entry.content.Keyring?)
  }

  predicate PlainName(name: Name) {
    name != "" && name != "." && name != ".." && '/' !in name && '\\' !in name
  }

  // ---------------------------------------------------------------- specification

  /** The part of a directory that a restore replaces. */
  function Guest(dir: Directory): Directory {
    map n | n in dir && n !in PRESERVED :: dir[n]
  }

  /** What a restore of the archive is meant to make live. */
  function Incoming(archive: Archive): Directory {
    map n | n in archive.members && n !in PRESERVED :: Intact(archive.members[n])
  }

  function Entries(dir: Option<Directory>): Directory {
    if dir.Some? then dir.value else map[]
  }

  predicate RollingBack(d: Disk) {
    d.journal.Some? && !d.journal.value.phase.Committed?
  }

  /** While installing, a live entry under an incoming name is new data until its restoration is journaled. */
  predicate Replaceable(d: Disk, name: Name) {
    && d.journal.Some?
    && d.journal.value.phase.Installing?
    && name in d.journal.value.incoming
    && name !in d.journal.value.restored
  }

  /** The replaceable part of the live directory that a completed recovery would leave behind. */
  function Recovered(d: Disk): Directory {
    if RollingBack(d)
    then (map n | n in Guest(d.live) && !Replaceable(d, n) :: d.live[n]) + Entries(d.rollback)
    else Guest(d.live)
  }

  predicate Holds(dir: Directory, name: Name, entry: Entry) {
    name in dir && dir[name] == entry
  }

  /**
   `dir` is `base`, plus standard directories that a boot created empty, and but for the temporary
   keyring files of some processes: one may be gone, and what is new in one is residue of a merge.
   */
  predicate Extends(base: Directory, dir: Directory, writers: set<nat>) {
    && (forall n | n in base && !IsTemporary(n, writers) :: Holds(dir, n, base[n]))
    && (forall n | n in dir && !Holds(base, n, dir[n]) ::
          if IsTemporary(n, writers) then Residue(dir[n])
          else n !in base && n in STANDARD && dir[n] == Intact(EmptyDirectory))
  }

  predicate WellFormed(d: Disk) {
    && (d.journal.Some? ==>
          && d.paused
          && (forall n | n in d.journal.value.incoming :: PlainName(n) && n !in PRESERVED))
    && (RollingBack(d) ==>
          && d.pending
          && d.rollback.Some?
          && (forall n | n in d.rollback.value :: n !in PRESERVED))
  }

  /** What may be live under the name of an entry that was moved aside: never that entry itself. */
  predicate NotMoved(name: Name, entry: Entry, after: Directory) {
    entry == Damaged || entry == Intact(EmptyDirectory) || (name in after && entry == after[name])
  }

  predicate MovedOnce(d: Disk, after: Directory) {
    RollingBack(d) ==>
      forall n | n in d.live && n in Entries(d.rollback) :: NotMoved(n, d.live[n], after)
  }

  /**
   The invariant of a run that began with the live entries `before` and restores to `after`:
   recovery would produce the old entries until a committed journal was written, and the new ones since,
   but for temporary files of the processes that have begun to write a keyring since then.
   */
  predicate Consistent(d: Disk, before: Directory, after: Directory, committed: bool, writers: set<nat>) {
    && WellFormed(d)
    && Extends(if committed then after else before, Recovered(d), writers)
    && (d.journal.Some? && d.journal.value.phase.Committed? ==> committed)
    && MovedOnce(d, after)
  }

  lemma ExtendsIsTransitive(a: Directory, b: Directory, c: Directory, writers: set<nat>)
    requires Extends(a, b, writers) && Extends(b, c, writers)
    ensures Extends(a, c, writers)
  {
  }

  lemma ExtendsForMore(a: Directory, b: Directory, writers: set<nat>, more: set<nat>)
    requires Extends(a, b, writers) && writers <= more
    ensures Extends(a, b, more)
  {
    assert forall n | IsTemporary(n, writers) :: IsTemporary(n, more);
    forall n | n in b && IsTemporary(n, more) && !IsTemporary(n, writers) ensures Holds(a, n, b[n]) {
      assert n !in STANDARD;
    }
  }

  /**
   Whenever no journal exists the live entries are all old, or all new once a restore was committed.
   Nothing else is among them but empty standard directories and temporary keyring files.
   */
  lemma AllOrNothing(d: Disk, before: Directory, after: Directory, committed: bool, writers: set<nat>, name: Name)
    requires Consistent(d, before, after, committed, writers)
    requires d.journal.None? && name !in PRESERVED
    ensures Extends(if committed then after else before, Guest(d.live), writers)
    ensures
      var base := if committed then after else before;
      if IsTemporary(name, writers) then
        name in d.live ==> Holds(base, name, d.live[name]) || Residue(d.live[name])
      else if name in base then
        Holds(d.live, name, base[name])
      else
        name in d.live ==> name in STANDARD && d.live[name] == Intact(EmptyDirectory)
  {
    assert name in d.live <==> name in Recovered(d);
  }

  /** An entry is whole: aside, and then what is live under its name is not it; or live and not up for deletion. */
  predicate Whole(d: Disk, name: Name, entry: Entry, after: Directory) {
    if RollingBack(d) && name in Entries(d.rollback) then
      d.rollback.value[name] == entry && (name in d.live ==> NotMoved(name, d.live[name], after))
    else
      Holds(d.live, name, entry) && !Replaceable(d, name)
  }

  /** Until the committed journal is written, every old entry is whole, and in exactly one place. */
  lemma NoOldDataLost(d: Disk, before: Directory, after: Directory, writers: set<nat>, name: Name)
    requires Consistent(d, before, after, false, writers) && name in before && !IsTemporary(name, writers)
    ensures Whole(d, name, before[name], after)
    ensures RollingBack(d) && !NotMoved(name, before[name], after) ==>
      (Holds(d.live, name, before[name]) <==> !Holds(Entries(d.rollback), name, before[name]))
  {
    assert Recovered(d)[name] == before[name];
  }

  // ---------------------------------------------------------------- what each step preserves

  /** A deletion of one live entry, which may be cut short and then leaves it as it was or damaged. */
  predicate Deletes(d: Disk, d': Disk, name: Name) {
    && d' == d.(live := d'.live)
    && d'.live - {name} == d.live - {name}
    && (name in d'.live ==> name in d.live && (d'.live[name] == d.live[name] || d'.live[name] == Damaged))
  }

  /** Recovery brings no further entry under the name of one that was moved aside. */
  predicate NoFurtherTwins(d: Disk, d': Disk) {
    RollingBack(d') ==>
      && RollingBack(d)
      && forall n | n in d'.live && n in Entries(d'.rollback) ::
           && n in d.live && n in Entries(d.rollback)
           && (d'.live[n] == d.live[n] || d'.live[n] == Damaged)
  }

  /** The only live entries that recovery ever deletes: those a rollback entry or the archive can replace. */
  predicate Expendable(d: Disk, name: Name) {
    name !in PRESERVED && RollingBack(d) && (name in Entries(d.rollback) || Replaceable(d, name))
  }

  lemma OthersUntouched(d: Disk, d': Disk, name: Name)
    requires Deletes(d, d', name)
    ensures forall n | n != name :: n in d'.live <==> n in d.live
    ensures forall n | n != name && n in d.live :: d'.live[n] == d.live[n]
  {
    forall n | n != name ensures n in d'.live <==> n in d.live {
      assert n in d'.live - {name} <==> n in d.live - {name};
    }
    forall n | n != name && n in d.live ensures d'.live[n] == d.live[n] {
      assert (d'.live - {name})[n] == (d.live - {name})[n];
    }
  }

  lemma DeletingKeepsOthers(d: Disk, d': Disk, name: Name)
    requires name !in PRESERVED && Deletes(d, d', name)
    ensures Kept(d'.live) == Kept(d.live) && NoFurtherTwins(d, d')
  {
    OthersUntouched(d, d', name);
  }

  lemma DeletingExpendableKeepsRecovered(d: Disk, d': Disk, name: Name)
    requires Expendable(d, name) && Deletes(d, d', name)
    ensures Recovered(d') == Recovered(d)
  {
    OthersUntouched(d, d', name);
    forall n ensures n in Recovered(d') <==> n in Recovered(d) {
    }
    forall n | n in Recovered(d) ensures Recovered(d')[n] == Recovered(d)[n] {
    }
  }

  function Intended(d: Disk, name: Name): Disk
    requires d.journal.Some?
  {
    var journal := d.journal.value;
    d.(journal := Some(journal.(restored := journal.restored + [name])))
  }

  lemma JournalingIntentKeepsRecovered(d: Disk, name: Name)
    requires RollingBack(d) && name in Entries(d.rollback)
    ensures Recovered(Intended(d, name)) == Recovered(d)
  {
  }

  lemma RenamingBackKeepsRecovered(d: Disk, name: Name)
    requires WellFormed(d) && RollingBack(d)
    requires name in Entries(d.rollback) && name in d.journal.value.restored
    ensures Recovered(MovedBack(d, name)) == Recovered(d)
  {
    assert name !in PRESERVED;
  }

  function MovedBack(d: Disk, name: Name): Disk
    requires name in Entries(d.rollback)
  {
    d.(live := d.live[name := d.rollback.value[name]], rollback := Some(d.rollback.value - {name}))
  }

  function MovedAside(d: Disk, name: Name): Disk
    requires name in d.live && d.rollback.Some?
  {
    d.(live := d.live - {name}, rollback := Some(d.rollback.value[name := d.live[name]]))
  }

  lemma MovingAsideKeepsRecovered(d: Disk, name: Name)
    requires name in d.live && name !in PRESERVED
    requires RollingBack(d) && d.journal.value.phase.Moving?
    requires d.rollback.Some? && name !in d.rollback.value
    ensures Recovered(MovedAside(d, name)) == Recovered(d)
  {
  }

  function Installed(d: Disk, name: Name): Disk
    requires name in Entries(d.stage)
  {
    d.(live := d.live[name := d.stage.value[name]], stage := Some(d.stage.value - {name}))
  }

  lemma InstallingKeepsRecovered(d: Disk, name: Name)
    requires name in Entries(d.stage) && Replaceable(d, name)
    ensures Recovered(Installed(d, name)) == Recovered(d)
  {
  }

  /** What a boot does before any restore code runs. */
  function Booted(d: Disk, created: set<Name>): Disk {
    d.(live := d.live + map n | n in created * STANDARD && n !in d.live :: Intact(EmptyDirectory))
  }

  lemma BootExtendsRecovered(d: Disk, created: set<Name>)
    ensures Extends(Recovered(d), Recovered(Booted(d, created)), {})
  {
    var d' := Booted(d, created);
    assert d'.journal == d.journal && d'.rollback == d.rollback;
    forall n | n in Recovered(d) ensures n in Recovered(d') && Recovered(d')[n] == Recovered(d)[n] {
    }
  }

  lemma BootKeepsConsistent(d: Disk, created: set<Name>, before: Directory, after: Directory, committed: bool,
      writers: set<nat>)
    requires Consistent(d, before, after, committed, writers)
    ensures Consistent(Booted(d, created), before, after, committed, writers)
  {
    BootExtendsRecovered(d, created);
    ExtendsForMore(Recovered(d), Recovered(Booted(d, created)), {}, writers);
    ExtendsIsTransitive(if committed then after else before, Recovered(d), Recovered(Booted(d, created)), writers);
    BootMovesNothing(d, created, after);
  }

  lemma BootMovesNothing(d: Disk, created: set<Name>, after: Directory)
    requires MovedOnce(d, after)
    ensures MovedOnce(Booted(d, created), after)
  {
    var d' := Booted(d, created);
    if RollingBack(d') {
      forall n | n in d'.live && n in Entries(d'.rollback) ensures NotMoved(n, d'.live[n], after) {
        assert n in d.live ==> d'.live[n] == d.live[n];
      }
    }
  }

  /** A boot adds only empty standard directories to the preserved entries, too. */
  lemma BootExtendsKept(d: Disk, created: set<Name>)
    ensures Extends(Kept(d.live), Kept(Booted(d, created).live), {})
  {
  }

  // ---------------------------------------------------------------- the code, with every call able to fail

  /** How a step ended: it returned, it threw an error, or the process died in it. */
  datatype Outcome = Done | Threw | Died {
    predicate IsFailure() {
      !Done?
    }

    function PropagateFailure(): Outcome {
      this
    }
  }

  /** The listing names each of the keys once. */
  ghost predicate Lists(names: seq<Name>, keys: set<Name>) {
    && (forall n :: n in names <==> n in keys)
    && (forall i, j | 0 <= i < j < |names| :: names[i] != names[j])
  }

  function Rest(names: seq<Name>, i: nat): set<Name>
    requires i <= |names|
  {
    set n | n in names[i..]
  }

  lemma RestDropsFirst(names: seq<Name>, i: nat)
    requires i < |names| && forall j, k | 0 <= j < k < |names| :: names[j] != names[k]
    ensures names[i] in Rest(names, i)
    ensures Rest(names, i + 1) == Rest(names, i) - {names[i]}
  {
    assert names[i..] == [names[i]] + names[i + 1..];
  }

  /** The names not yet visited that a restore replaces. */
  function RestGuests(names: seq<Name>, i: nat): set<Name>
    requires i <= |names|
  {
    set n | n in names[i..] && n !in PRESERVED
  }

  lemma RestGuestsDropsFirst(names: seq<Name>, i: nat)
    requires i < |names| && forall j, k | 0 <= j < k < |names| :: names[j] != names[k]
    ensures names[i] in PRESERVED ==> RestGuests(names, i + 1) == RestGuests(names, i)
    ensures names[i] !in PRESERVED ==>
      names[i] in RestGuests(names, i) && RestGuests(names, i + 1) == RestGuests(names, i) - {names[i]}
  {
    assert names[i..] == [names[i]] + names[i + 1..];
  }

  lemma ListingNamesGuests(names: seq<Name>, dir: Directory)
    requires Lists(names, dir.Keys)
    ensures RestGuests(names, 0) == Guest(dir).Keys
  {
    assert names[0..] == names;
  }

  /** What an interrupted recursive delete, or an interrupted extraction, leaves of a directory. */
  datatype Leftover = Leftover(kept: set<Name>, broken: set<Name>)

  datatype Fate = Works | Throws(left: Leftover) | Dies(left: Leftover)

  function Partly(dir: Directory, left: Leftover): Directory {
    map n | n in dir && n in left.kept :: if n in left.broken then Damaged else dir[n]
  }

  /** The entries a restore never replaces, apart from the keyring it may extend. */
  function Kept(dir: Directory): Directory {
    map n | n in dir && n in PRESERVED && n != ARCHIVE_KEYRING :: dir[n]
  }

  /** The archive passes every check that a restore makes before it touches live data. */
  predicate Acceptable(archive: Archive) {
    && archive.genuine
    && archive.databaseSound
    && "sham.db" in archive.members
    && (ARCHIVE_KEYRING in archive.members ==> archive.keyringSound)
    && forall n | n in archive.members :: PlainName(n)
  }

  /** Restoring the archive comes to merging a keyring that it carries. */
  predicate MergesKeyring(archive: Archive) {
    Acceptable(archive) && ARCHIVE_KEYRING in archive.members
  }

  /** Recovery is under way from `d` and has reached `d'`, heading for the same result. */
  predicate Undoing(d: Disk, d': Disk) {
    && WellFormed(d')
    && RollingBack(d) && RollingBack(d')
    && d'.journal.value.phase == d.journal.value.phase
    && d'.pending == d.pending && d'.paused == d.paused && d'.failed == d.failed
    && Kept(d'.live) == Kept(d.live)
    && Recovered(d') == Recovered(d)
    && NoFurtherTwins(d, d')
    && forall n | n in d'.live :: !Replaceable(d', n)
  }

  lemma JournalingIntentUndoes(d: Disk, name: Name)
    requires Undoing(d, d) && name in Entries(d.rollback)
    ensures Undoing(d, Intended(d, name))
  {
    var d' := Intended(d, name);
    JournalingIntentKeepsRecovered(d, name);
    forall n | n in d'.live ensures !Replaceable(d', n) {
      assert !Replaceable(d, n);
    }
    assert name !in PRESERVED;
  }

  lemma DeletingUndoes(d: Disk, d': Disk, name: Name)
    requires Undoing(d, d) && name in Entries(d.rollback) && Deletes(d, d', name)
    requires name in d.journal.value.restored
    ensures Undoing(d, d')
  {
    assert name !in PRESERVED;
    DeletingExpendableKeepsRecovered(d, d', name);
    DeletingKeepsOthers(d, d', name);
    OthersUntouched(d, d', name);
    forall n | n in d'.live ensures !Replaceable(d', n) {
      assert n == name || !Replaceable(d, n);
    }
  }

  lemma RenamingBackUndoes(d: Disk, name: Name)
    requires Undoing(d, d) && name in Entries(d.rollback)
    requires name in d.journal.value.restored
    ensures Undoing(d, MovedBack(d, name))
  {
    RenamingBackKeepsRecovered(d, name);
    var d' := MovedBack(d, name);
    forall n | n in d'.live ensures !Replaceable(d', n) {
      assert n == name || !Replaceable(d, n);
    }
    assert name !in PRESERVED;
    assert Kept(d'.live) == Kept(d.live);
  }

  /** Deletions of new data have turned `d` into `d'`. */
  predicate Clearing(d: Disk, d': Disk) {
    && WellFormed(d') && d' == d.(live := d'.live)
    && Recovered(d') == Recovered(d) && Kept(d'.live) == Kept(d.live)
    && NoFurtherTwins(d, d')
  }

  lemma ClearingIsTransitive(a: Disk, b: Disk, c: Disk)
    requires Clearing(a, b) && Clearing(b, c)
    ensures Clearing(a, c)
  {
  }

  lemma UndoingIsTransitive(a: Disk, b: Disk, c: Disk)
    requires Undoing(a, b) && Undoing(b, c)
    ensures Undoing(a, c)
  {
  }

  lemma UndoneIsRecovered(d: Disk)
    requires Undoing(d, d) && Entries(d.rollback) == map[]
    ensures Guest(d.live) == Recovered(d)
  {
    assert forall n | n in Guest(d.live) :: !Replaceable(d, n);
  }

  /** The swap is under way from `d` and has reached `d'`, under the same journal. */
  predicate Swapping(d: Disk, d': Disk) {
    && WellFormed(d')
    && RollingBack(d) && RollingBack(d')
    && d'.journal == d.journal
    && d'.pending == d.pending && d'.paused == d.paused && d'.failed == d.failed
    && Kept(d'.live) == Kept(d.live)
    && Recovered(d') == Recovered(d)
  }

  lemma MovingAsideSwaps(d: Disk, name: Name)
    requires Swapping(d, d) && d.journal.value.phase.Moving?
    requires name in d.live && name !in PRESERVED && name !in Entries(d.rollback)
    ensures Swapping(d, MovedAside(d, name))
  {
    MovingAsideKeepsRecovered(d, name);
    assert Kept(MovedAside(d, name).live) == Kept(d.live);
  }

  lemma MovingAsideSeparates(d: Disk, name: Name)
    requires name in d.live && d.rollback.Some? && name !in PRESERVED
    requires d.live.Keys !! d.rollback.value.Keys
    ensures
      var d' := MovedAside(d, name);
      && Guest(d'.live).Keys == Guest(d.live).Keys - {name}
      && d'.live.Keys !! d'.rollback.value.Keys
  {
  }

  lemma InstallingSwaps(d: Disk, name: Name)
    requires Swapping(d, d) && name in Entries(d.stage) && Replaceable(d, name)
    ensures Swapping(d, Installed(d, name))
  {
    InstallingKeepsRecovered(d, name);
    assert Kept(Installed(d, name).live) == Kept(d.live);
  }

  lemma SwappingIsTransitive(a: Disk, b: Disk, c: Disk)
    requires Swapping(a, b) && Swapping(b, c)
    ensures Swapping(a, c)
  {
  }

  /** Everything a restore prepares before its first journal write: a full stage and an empty rollback. */
  predicate Prepared(d: Disk, archive: Archive) {
    && d.journal.None? && d.pending && d.paused
    && d.stage == Some(Incoming(archive))
    && d.rollback == Some(map[])
    && forall n | n in archive.members :: PlainName(n)
  }

  /** The restore is complete: exactly the archive is live and nothing is left over. */
  predicate Replaced(d: Disk, archive: Archive) {
    && Guest(d.live) == Incoming(archive)
    && d.journal.None? && !d.pending && !d.failed
    && d.stage.None? && d.rollback.None?
  }

  /** `d'` is where `d` was heading, and no restore was committed in between. */
  predicate SameOutcome(d: Disk, d': Disk) {
    && WellFormed(d')
    && Recovered(d') == Recovered(d)
    && (d'.journal.Some? && d'.journal.value.phase.Committed? ==>
          d.journal.Some? && d.journal.value.phase.Committed?)
    && NoFurtherTwins(d, d')
  }

  lemma SameOutcomeKeepsConsistent(d: Disk, d': Disk, before: Directory, after: Directory, committed: bool,
      writers: set<nat>)
    requires Consistent(d, before, after, committed, writers) && SameOutcome(d, d')
    ensures Consistent(d', before, after, committed, writers)
  {
  }

  /** A swap cut short heads for what it headed for, with nothing but new data under moved names. */
  lemma SwapFailureKeepsConsistent(d: Disk, d': Disk, before: Directory, after: Directory, committed: bool,
      writers: set<nat>)
    requires Consistent(d, before, after, committed, writers) && WellFormed(d') && Recovered(d') == Recovered(d)
    requires (d'.journal.Some? ==> RollingBack(d')) && MovedOnce(d', after)
    ensures Consistent(d', before, after, committed, writers)
  {
  }

  /** Preparing keeps the run on course, if the process counts as a writer once it has touched its file. */
  lemma PreparingKeepsConsistent(d: Disk, d': Disk, before: Directory, after: Directory, committed: bool,
      writers: set<nat>, writers': set<nat>, pid: nat)
    requires Consistent(d, before, after, committed, writers)
    requires d.journal.None? && OnlyWorkAreaChanged(d, d', pid)
    requires writers <= writers' && (Guest(d'.live) != Guest(d.live) ==> pid in writers')
    ensures Consistent(d', before, after, committed, writers')
  {
    var base := if committed then after else before;
    ExtendsForMore(base, Recovered(d), writers, writers');
    if Guest(d'.live) != Guest(d.live) {
      LitteringExtends(Guest(d.live), Guest(d'.live), pid);
      ExtendsForMore(Guest(d.live), Guest(d'.live), {pid}, writers');
      ExtendsIsTransitive(base, Guest(d.live), Guest(d'.live), writers');
    }
  }

  lemma SettledIsConsistent(d: Disk, before: Directory, after: Directory)
    requires WellFormed(d) && !RollingBack(d) && Recovered(d) == after
    ensures Consistent(d, before, after, true, {})
  {
  }

  /** A restore step that returned has finished recovery, and has applied the archive if it says so. */
  predicate Returned(d: Disk, archive: Archive, applied: bool) {
    && d.journal.None? && !d.pending
    && (applied ==> Replaced(d, archive))
  }

  /** What one restore step does when no call fails. */
  predicate LeftAlone(d: Disk, d': Disk, archive: Archive, o: Outcome, applied: bool) {
    && d'.journal.None? && !d'.pending
    && if d.pending && Acceptable(archive) then
         o.Done? && applied && Replaced(d', archive)
       else if d.pending then
         o.Threw? && d'.failed && Guest(d'.live) == Recovered(d)
       else
         o.Done? && !applied && d'.failed == d.failed && Guest(d'.live) == Recovered(d)
  }

  lemma PauseKeepsOutcome(d: Disk, d': Disk)
    requires WellFormed(d) && d' == d.(paused := d'.paused)
    requires d.journal.Some? ==> d'.paused
    ensures SameOutcome(d, d')
  {
  }

  /** The two directories differ only in the temporary keyring file of one process. */
  predicate Littered(dir: Directory, dir': Directory, pid: nat) {
    && dir' - {Temporary(pid)} == dir - {Temporary(pid)}
    && (Temporary(pid) in dir' ==>
          Holds(dir, Temporary(pid), dir'[Temporary(pid)]) || Residue(dir'[Temporary(pid)]))
  }

  lemma LitteringExtends(dir: Directory, dir': Directory, pid: nat)
    requires Littered(dir, dir', pid)
    ensures Extends(dir, dir', {pid})
  {
    assert IsTemporary(Temporary(pid), {pid});
    forall n | n != Temporary(pid) ensures n in dir' <==> n in dir {
      assert n in dir' - {Temporary(pid)} <==> n in dir - {Temporary(pid)};
    }
    forall n | n in dir && n != Temporary(pid) ensures Holds(dir', n, dir[n]) {
      assert (dir' - {Temporary(pid)})[n] == (dir - {Temporary(pid)})[n];
    }
  }

  /** Preparing changes no marker and nothing live, but for the keyring and its temporary file. */
  predicate OnlyWorkAreaChanged(d: Disk, d': Disk, pid: nat) {
    && d'.journal == d.journal && d'.pending == d.pending && d'.paused == d.paused && d'.failed == d.failed
    && Littered(Guest(d.live), Guest(d'.live), pid)
    && Kept(d'.live) == Kept(d.live)
  }

  /** What is live after a keyring was written: to a temporary file first, which is then renamed. */
  function KeyringWritten(live: Directory, pid: nat, keyring: nat, write: Fate, rename: Fate): Directory {
    var temporary := Temporary(pid);
    if !write.Works? then
      if temporary in write.left.broken then live[temporary := Damaged] else live
    else if !rename.Works? then
      live[temporary := Intact(Keyring(keyring))]
    else
      (live - {temporary})[ARCHIVE_KEYRING := Intact(Keyring(keyring))]
  }

  lemma WritingLitters(live: Directory, pid: nat, keyring: nat, write: Fate, rename: Fate)
    ensures
      var live' := KeyringWritten(live, pid, keyring, write, rename);
      Littered(Guest(live), Guest(live'), pid) && Kept(live') == Kept(live)
  {
    var t, live' := Temporary(pid), KeyringWritten(live, pid, keyring, write, rename);
    assert Guest(live') - {t} == Guest(live) - {t};
  }

  /** Exactly when writing a keyring leaves a file of neither set: it stops between its first byte and the rename. */
  lemma ResidueIffCutShort(live: Directory, pid: nat, keyring: nat, write: Fate, rename: Fate)
    requires Temporary(pid) !in live
    ensures
      var live' := KeyringWritten(live, pid, keyring, write, rename);
      Extends(Guest(live), Guest(live'), {}) <==>
      !(if write.Works? then !rename.Works? else Temporary(pid) in write.left.broken)
  {
    var t, live' := Temporary(pid), KeyringWritten(live, pid, keyring, write, rename);
    if t in live' {
      assert t in Guest(live') && !Holds(Guest(live), t, live'[t]);
    } else {
      assert Guest(live') == Guest(live);
    }
  }

  lemma ForeignEntryShows(base: Directory, dir: Directory, name: Name)
    requires name in dir && name !in base && name !in STANDARD
    ensures !Extends(base, dir, {})
  {
    assert !Holds(base, name, dir[name]) && !IsTemporary(name, {});
  }

  /** A death before the rename leaves a file that is in neither set, and no journal to undo it. */
  lemma MergeCanLeaveAFile(before: Directory, after: Directory, pid: nat, keyring: nat, left: Leftover)
    requires Temporary(pid) !in before && Temporary(pid) !in after && Guest(before) == before
    ensures
      var live := KeyringWritten(before, pid, keyring, Works, Dies(left));
      && Consistent(Disk(live, None, None, None, true, false, true), before, after, false, {pid})
      && !Extends(before, Guest(live), {}) && !Extends(after, Guest(live), {})
  {
    var live := KeyringWritten(before, pid, keyring, Works, Dies(left));
    WritingLitters(before, pid, keyring, Works, Dies(left));
    LitteringExtends(Guest(before), Guest(live), pid);
    ForeignEntryShows(before, Guest(live), Temporary(pid));
    ForeignEntryShows(after, Guest(live), Temporary(pid));
  }

  /** Every entry of `whole` is in exactly one of the two directories, unchanged. */
  predicate InTransit(whole: Directory, arrived: Directory, waiting: Directory) {
    && arrived.Keys + waiting.Keys == whole.Keys
    && arrived.Keys * waiting.Keys == {}
    && (forall n | n in arrived :: arrived[n] == whole[n])
    && (forall n | n in waiting :: waiting[n] == whole[n])
  }

  function BeginInstalling(d: Disk, incoming: seq<Name>): Disk {
    d.(journal := Some(Journal(Installing, incoming, [])))
  }

  /** With everything moved aside, announcing the installation changes nothing of what recovery yields. */
  lemma ReadyToInstall(d: Disk, incoming: seq<Name>)
    requires Swapping(d, d) && d.journal.value == Journal(Moving, incoming, []) && Guest(d.live) == map[]
    ensures Swapping(BeginInstalling(d, incoming), BeginInstalling(d, incoming))
    ensures Recovered(BeginInstalling(d, incoming)) == Recovered(d)
  {
    assert forall n | n in d.live :: n !in Guest(d.live) ==> n in PRESERVED;
  }

  lemma InstalledMovedOnce(d: Disk, archive: Archive)
    requires WellFormed(d) && RollingBack(d) && d.stage.Some?
    requires InTransit(Incoming(archive), Guest(d.live), d.stage.value)
    ensures MovedOnce(d, Incoming(archive))
  {
    forall n | n in d.live && n in Entries(d.rollback) ensures NotMoved(n, d.live[n], Incoming(archive)) {
      assert n in Guest(d.live);
    }
  }

  /** Installing from `start` has come to `d`, and the names in `left` are still staged. */
  predicate Filling(start: Disk, d: Disk, staged: Directory, left: set<Name>) {
    && Swapping(start, d)
    && d.stage.Some? && d.stage.value.Keys == left
    && InTransit(staged, Guest(d.live), d.stage.value)
  }

  lemma FillingGoesOn(start: Disk, d: Disk, staged: Directory, left: set<Name>, name: Name)
    requires Filling(start, d, staged, left) && name in left && Replaceable(d, name)
    ensures Filling(start, Installed(d, name), staged, left - {name})
  {
    InstallingSwaps(d, name);
    SwappingIsTransitive(start, d, Installed(d, name));
    InstallingStaysInTransit(staged, d, name);
  }

  lemma AllArrived(whole: Directory, arrived: Directory, waiting: Directory)
    requires InTransit(whole, arrived, waiting) && waiting.Keys == {}
    ensures arrived == whole
  {
  }

  lemma InstallingStaysInTransit(whole: Directory, d: Disk, name: Name)
    requires name in Entries(d.stage) && name !in PRESERVED
    requires InTransit(whole, Guest(d.live), d.stage.value)
    ensures InTransit(whole, Guest(Installed(d, name).live), Entries(Installed(d, name).stage))
  {
    var d' := Installed(d, name);
    assert Guest(d'.live) == Guest(d.live)[name := whole[name]];
    assert Entries(d'.stage) == d.stage.value - {name};
  }

  /** The entries that extraction writes: everything but reserved names, and the keyring. */
  function Extracted(archive: Archive): Directory {
    map n | n in archive.members && (n == ARCHIVE_KEYRING || n !in PRESERVED) :: Intact(archive.members[n])
  }

  /** The fate of a call; calls beyond the scripted ones work. */
  function FateAt(fates: seq<Fate>, i: nat): Fate {
    if i < |fates| then fates[i] else Works
  }

  /** The data directory of one host, and what will happen to the next file-system calls made on it. */
  class Host {
    var disk: Disk
    var fates: seq<Fate>
    const archive: Archive
    var pid: nat
    /** Whether a committed journal was ever written for this archive. */
    ghost var committed: bool
    /** The processes that have begun to write a keyring since then. */
    ghost var writers: set<nat>

    constructor (disk: Disk, archive: Archive)
      ensures this.disk == disk && this.archive == archive && this.fates == [] && !committed && writers == {}
    {
      this.disk, this.archive, this.fates, this.pid := disk, archive, [], 0;
      this.committed, this.writers := false, {};
    }

    ghost predicate OnCourse(before: Directory)
      reads this
    {
      Consistent(disk, before, Incoming(archive), committed, writers)
    }

    /** The fate of the next call. */
    method NextFate() returns (fate: Fate)
      modifies this`fates
      ensures fate == FateAt(old(fates), 0)
      ensures old(fates) == [] ==> fates == []
      ensures fates == if old(fates) == [] then [] else old(fates)[1..]
    {
      if fates == [] {
        return Works;
      }
      fate, fates := fates[0], fates[1..];
    }

    /** A call that either has its whole effect, turning the disk into `next`, or none. */
    method Atomically(next: Disk) returns (o: Outcome)
      modifies this`disk, this`fates
      ensures o.Done? ==> disk == next
      ensures !o.Done? ==> disk == old(disk)
      ensures old(fates) == [] ==> o.Done? && fates == []
    {
      var fate := NextFate();
      match fate
      case Works =>
        disk := next;
        return Done;
      case Throws(_) => return Threw;
      case Dies(_) => return Died;
    }

    /** Recursive, forced removal of one live entry. */
    method RemoveLive(name: Name) returns (o: Outcome)
      modifies this`disk, this`fates
      ensures Deletes(old(disk), disk, name)
      ensures o.Done? ==> name !in disk.live
      ensures old(fates) == [] ==> o.Done? && fates == []
    {
      var fate := NextFate();
      if fate.Works? || name !in disk.live || name !in fate.left.kept {
        disk := disk.(live := disk.live - {name});
      } else if name in fate.left.broken {
        disk := disk.(live := disk.live[name := Damaged]);
      }
      o := match fate case Works => Done case Throws(_) => Threw case Dies(_) => Died;
    }

    method RemoveStage() returns (o: Outcome)
      modifies this`disk, this`fates
      ensures disk == old(disk).(stage := disk.stage)
      ensures o.Done? ==> disk.stage.None?
      ensures old(fates) == [] ==> o.Done? && fates == []
    {
      var fate := NextFate();
      if fate.Works? {
        disk := disk.(stage := None);
        return Done;
      }
      if disk.stage.Some? {
        disk := disk.(stage := Some(Partly(disk.stage.value, fate.left)));
      }
      o := if fate.Throws? then Threw else Died;
    }

    method RemoveRollback() returns (o: Outcome)
      modifies this`disk, this`fates
      ensures disk == old(disk).(rollback := disk.rollback)
      ensures o.Done? ==> disk.rollback.None?
      ensures old(fates) == [] ==> o.Done? && fates == []
    {
      var fate := NextFate();
      if fate.Works? {
        disk := disk.(rollback := None);
        return Done;
      }
      if disk.rollback.Some? {
        disk := disk.(rollback := Some(Partly(disk.rollback.value, fate.left)));
      }
      o := if fate.Throws? then Threw else Died;
    }

    /** The names in a directory, each once, in whatever order the system lists them. */
    method List(dir: Directory) returns (o: Outcome, names: seq<Name>)
      modifies this`fates
      ensures o.Done? ==> Lists(names, dir.Keys)
      ensures old(fates) == [] ==> o.Done? && fates == []
    {
      names := [];
      var fate := NextFate();
      if !fate.Works? {
        o := if fate.Throws? then Threw else Died;
        return;
      }
      var rest := dir.Keys;
      while rest != {}
        invariant Lists(names, dir.Keys - rest) && rest <= dir.Keys
        decreases rest
      {
        var name :| name in rest;
        ghost var listed := dir.Keys - rest;
        rest := rest - {name};
        assert dir.Keys - rest == listed + {name};
        names := names + [name];
      }
      assert dir.Keys - rest == dir.Keys;
      o := Done;
    }

    // -------------------------------------------------------------- recovery

    /**
     Finish or undo an interrupted restore. However often it is cut short, what recovery is
     heading for does not change, and when it completes the live directory is exactly that.
     */
    method Recover() returns (o: Outcome)
      requires WellFormed(disk)
      modifies this`disk, this`fates
      ensures WellFormed(disk)
      ensures Recovered(disk) == old(Recovered(disk))
      ensures Kept(disk.live) == old(Kept(disk.live)) && NoFurtherTwins(old(disk), disk)
      ensures disk.pending == old(disk.pending) && disk.paused == old(disk.paused) && disk.failed == old(disk.failed)
      ensures disk.journal.Some? ==>
        old(disk.journal.Some?) && disk.journal.value.phase == old(disk).journal.value.phase
      ensures o.Done? ==> disk.journal.None?
      ensures o.Done? ==> Guest(disk.live) == old(Recovered(disk))
      ensures o.Done? && old(disk.journal.None?) ==> disk == old(disk)
      ensures o.Done? && old(disk.journal.Some?) ==> disk.stage.None? && disk.rollback.None?
      ensures old(fates) == [] ==> o.Done? && fates == []
    {
      o := Atomically(disk);
      if !o.Done? {
        return;
      }
      if disk.journal.None? {
        return Done;
      }
      var journal := disk.journal.value;
      if exists n :: n in journal.incoming && !(PlainName(n) && n !in PRESERVED) {
        return Threw;
      }
      if journal.phase != Committed {
        :- RemoveReplaceable(journal);
        :- RestoreRollback(journal);
      }
      :- Atomically(disk.(journal := None));
      :- RemoveStage();
      :- RemoveRollback();
      o := Done;
    }

    /** Delete the entries that the interrupted restore had put in place. */
    method RemoveReplaceable(journal: Journal) returns (o: Outcome)
      requires WellFormed(disk) && RollingBack(disk) && disk.journal.value == journal
      modifies this`disk, this`fates
      ensures Clearing(old(disk), disk)
      ensures o.Done? ==> forall n | n in disk.live :: !Replaceable(disk, n)
      ensures old(fates) == [] ==> o.Done? && fates == []
    {
      for i := 0 to |journal.incoming|
        invariant Clearing(old(disk), disk)
        invariant forall k | 0 <= k < i && Replaceable(disk, journal.incoming[k]) :: journal.incoming[k] !in disk.live
        invariant old(fates) == [] ==> fates == []
      {
        var name := journal.incoming[i];
        if journal.phase == Installing && name !in journal.restored {
          ghost var was := disk;
          o := RemoveNew(name);
          ClearingIsTransitive(old(disk), was, disk);
          if !o.Done? {
            return;
          }
        }
      }
      o := Done;
    }

    method RemoveNew(name: Name) returns (o: Outcome)
      requires WellFormed(disk) && RollingBack(disk) && Replaceable(disk, name)
      modifies this`disk, this`fates
      ensures Clearing(old(disk), disk)
      ensures disk.live.Keys <= old(disk.live.Keys) && (o.Done? ==> name !in disk.live)
      ensures old(fates) == [] ==> o.Done? && fates == []
    {
      o := RemoveLive(name);
      DeletingExpendableKeepsRecovered(old(disk), disk, name);
      DeletingKeepsOthers(old(disk), disk, name);
      assert disk.live.Keys <= old(disk.live.Keys) by {
        OthersUntouched(old(disk), disk, name);
      }
    }

    /** Rename every rollback entry back, journaling the intent before each one. */
    method RestoreRollback(interrupted: Journal) returns (o: Outcome)
      requires Undoing(disk, disk) && disk.journal.value == interrupted
      modifies this`disk, this`fates
      ensures Undoing(old(disk), disk)
      ensures o.Done? ==> Guest(disk.live) == Recovered(disk)
      ensures old(fates) == [] ==> o.Done? && fates == []
    {
      var journal := interrupted;
      var names :- List(Entries(disk.rollback));
      for i := 0 to |names|
        invariant Undoing(old(disk), disk) && disk.journal.value == journal
        invariant Entries(disk.rollback).Keys == Rest(names, i)
        invariant old(fates) == [] ==> fates == []
      {
        RestDropsFirst(names, i);
        ghost var was := disk;
        o, journal := RestoreEntry(journal, names[i]);
        UndoingIsTransitive(old(disk), was, disk);
        if !o.Done? {
          return;
        }
      }
      UndoneIsRecovered(disk);
      o := Done;
    }

    method RestoreEntry(interrupted: Journal, name: Name) returns (o: Outcome, journal: Journal)
      requires Undoing(disk, disk) && disk.journal.value == interrupted
      requires name in Entries(disk.rollback)
      modifies this`disk, this`fates
      ensures Undoing(old(disk), disk)
      ensures o.Done? ==> disk.journal.value == journal
      ensures o.Done? ==> Entries(disk.rollback) == Entries(old(disk.rollback)) - {name}
      ensures old(fates) == [] ==> o.Done? && fates == []
    {
      journal := interrupted;
      ghost var start := disk;
      if name !in journal.restored {
        journal := journal.(restored := journal.restored + [name]);
        JournalingIntentUndoes(disk, name);
        :- Atomically(disk.(journal := Some(journal)));
      }
      ghost var intended := disk;
      o := RemoveLive(name);
      DeletingUndoes(intended, disk, name);
      UndoingIsTransitive(start, intended, disk);
      if o.Done? {
        ghost var cleared := disk;
        RenamingBackUndoes(disk, name);
        o := Atomically(MovedBack(disk, name));
        UndoingIsTransitive(start, cleared, disk);
      }
    }

    // -------------------------------------------------------------- applying a restore

    /** Write the pause marker and wait for the agent; the agent's answer is one more call that may fail. */
    method Pause() returns (o: Outcome)
      modifies this`disk, this`fates
      ensures disk == old(disk).(paused := disk.paused)
      ensures o.Done? ==> disk.paused
      ensures disk.journal.Some? && old(disk.paused) ==> disk.paused
      ensures old(fates) == [] ==> o.Done? && fates == []
    {
      o := Atomically(disk.(paused := true));
      if !o.Done? {
        return;
      }
      o := Atomically(disk);
      if o.Threw? && disk.journal.None? {
        :- Resume();
      }
    }

    method Resume() returns (o: Outcome)
      modifies this`disk, this`fates
      ensures disk == old(disk).(paused := disk.paused)
      ensures o.Done? ==> !disk.paused
      ensures !o.Done? ==> disk == old(disk)
      ensures old(fates) == [] ==> o.Done? && fates == []
    {
      o := Atomically(disk.(paused := false));
    }

    /** Check the archive; the real check also reads the file, so it may fail for its own reasons. */
    method VerifyArchive() returns (o: Outcome)
      modifies this`fates
      ensures o.Done? ==>
        archive.genuine && "sham.db" in archive.members && forall n | n in archive.members :: PlainName(n)
      ensures old(fates) == [] ==> fates == [] && !o.Died?
      ensures old(fates) == [] && Acceptable(archive) ==> o.Done?
    {
      var fate := NextFate();
      if fate.Dies? {
        return Died;
      }
      if fate.Throws? || !archive.genuine || "sham.db" !in archive.members
         || exists n :: n in archive.members && !PlainName(n) {
        return Threw;
      }
      o := Done;
    }

    /** Extract into an empty stage; an interrupted extraction leaves part of it. */
    method Extract() returns (o: Outcome)
      modifies this`disk, this`fates
      ensures disk == old(disk).(stage := disk.stage)
      ensures o.Done? ==> disk.stage == Some(Extracted(archive))
      ensures old(fates) == [] && old(disk.stage) == Some(map[]) ==> o.Done? && fates == []
    {
      var fate := NextFate();
      if disk.stage != Some(map[]) {
        return Threw;
      }
      disk := disk.(stage := Some(if fate.Works? then Extracted(archive) else Partly(Extracted(archive), fate.left)));
      o := match fate case Works => Done case Throws(_) => Threw case Dies(_) => Died;
    }

    /** Create a work directory that must not exist yet. */
    method MakeStage() returns (o: Outcome)
      modifies this`disk, this`fates
      ensures disk == old(disk) || disk == old(disk).(stage := Some(map[]))
      ensures o.Done? ==> disk.stage == Some(map[])
      ensures old(fates) == [] && old(disk.stage.None?) ==> o.Done? && fates == []
    {
      if disk.stage.Some? {
        return Threw;
      }
      o := Atomically(disk.(stage := Some(map[])));
    }

    method MakeRollback() returns (o: Outcome)
      modifies this`disk, this`fates
      ensures disk == old(disk) || disk == old(disk).(rollback := Some(map[]))
      ensures o.Done? ==> disk.rollback == Some(map[])
      ensures old(fates) == [] && old(disk.rollback.None?) ==> o.Done? && fates == []
    {
      if disk.rollback.Some? {
        return Threw;
      }
      o := Atomically(disk.(rollback := Some(map[])));
    }

    /** Build the stage from the archive: its restorable members and its keyring. */
    method Unpack() returns (o: Outcome)
      requires disk.journal.None?
      modifies this`disk, this`fates
      ensures disk == old(disk).(stage := disk.stage, rollback := disk.rollback)
      ensures o.Done? ==>
        && disk.stage == Some(Extracted(archive)) && disk.rollback.None?
        && "sham.db" in archive.members && archive.genuine && forall n | n in archive.members :: PlainName(n)
      ensures old(fates) == [] ==> fates == [] && !o.Died? && (Acceptable(archive) ==> o.Done?)
    {
      o := VerifyArchive();
      if !o.Done? {
        return;
      }
      :- RemoveRollback();
      :- RemoveStage();
      :- MakeStage();
      :- Extract();
      o := Done;
    }

    /** Write the merged keyring to a temporary file in the data directory, and rename that. */
    method MergeKeyring() returns (o: Outcome)
      modifies this`disk, this`fates, this`writers
      ensures
        var write, rename := FateAt(old(fates), 0), FateAt(old(fates), 1);
        && disk == old(disk).(live := KeyringWritten(old(disk).live, pid, archive.mergedKeyring, write, rename))
        && (o.Done? <==> write.Works? && rename.Works?)
      ensures OnlyWorkAreaChanged(old(disk), disk, pid) && disk == old(disk).(live := disk.live)
      ensures writers == old(writers) + {pid}
      ensures old(fates) == [] ==> o.Done? && fates == []
    {
      WritingLitters(disk.live, pid, archive.mergedKeyring, FateAt(fates, 0), FateAt(fates, 1));
      var temporary, merged := Temporary(pid), Intact(Keyring(archive.mergedKeyring));
      writers := writers + {pid};
      var fate := NextFate();
      if !fate.Works? {
        if temporary in fate.left.broken {
          disk := disk.(live := disk.live[temporary := Damaged]);
        }
        o := if fate.Throws? then Threw else Died;
        return;
      }
      disk := disk.(live := disk.live[temporary := merged]);
      fate := NextFate();
      if !fate.Works? {
        o := if fate.Throws? then Threw else Died;
        return;
      }
      disk := disk.(live := (disk.live - {temporary})[ARCHIVE_KEYRING := merged]);
      assert disk.live == (old(disk).live - {temporary})[ARCHIVE_KEYRING := merged];
      o := Done;
    }

    /** Unpack the archive, set its keyring apart, and check what it holds. */
    method Stage() returns (o: Outcome, keyringFound: bool)
      requires disk.journal.None?
      modifies this`disk, this`fates
      ensures disk == old(disk).(stage := disk.stage, rollback := disk.rollback)
      ensures o.Done? ==> disk.stage == Some(Incoming(archive)) && disk.rollback.None? && Acceptable(archive)
      ensures o.Done? ==> keyringFound == (ARCHIVE_KEYRING in archive.members)
      ensures old(fates) == [] ==> fates == [] && (if Acceptable(archive) then o.Done? else o.Threw?)
    {
      keyringFound := false;
      o := Unpack();
      if !o.Done? {
        return;
      }
      keyringFound := ARCHIVE_KEYRING in disk.stage.value;
      var staged := disk.stage.value - {ARCHIVE_KEYRING};
      assert staged == Incoming(archive);
      o := Atomically(disk.(stage := Some(staged)));
      if !o.Done? {
        return;
      }
      if (exists n :: n in PRESERVED && n in staged) || "sham.db" !in staged || !archive.databaseSound
         || (keyringFound && !archive.keyringSound) {
        o := Threw;
      }
    }

    /** Stage the archive and merge its keyring; nothing live is replaced yet. */
    method Prepare() returns (o: Outcome)
      requires WellFormed(disk) && disk.journal.None? && disk.pending && disk.paused
      modifies this`disk, this`fates, this`writers
      ensures OnlyWorkAreaChanged(old(disk), disk, pid)
      ensures writers == old(writers) || (writers == old(writers) + {pid} && MergesKeyring(archive))
      ensures Guest(disk.live) != old(Guest(disk.live)) ==> pid in writers
      ensures o.Done? ==> Prepared(disk, archive) && Acceptable(archive)
      ensures old(fates) == [] ==> fates == [] && (if Acceptable(archive) then o.Done? else o.Threw?)
      ensures old(fates) == [] && !Acceptable(archive) ==> Guest(disk.live) == old(Guest(disk.live))
    {
      var keyringFound;
      o, keyringFound := Stage();
      if !o.Done? {
        return;
      }
      if keyringFound {
        :- MergeKeyring();
      }
      o := MakeRollback();
    }

    /** Move every guest entry out of the live directory into the rollback directory. */
    method MoveAside() returns (o: Outcome)
      requires Swapping(disk, disk) && disk.journal.value.phase.Moving? && disk.rollback == Some(map[])
      modifies this`disk, this`fates
      ensures Swapping(old(disk), disk) && disk.stage == old(disk.stage)
      ensures disk.live.Keys !! Entries(disk.rollback).Keys
      ensures o.Done? ==> Guest(disk.live) == map[]
      ensures old(fates) == [] ==> o.Done? && fates == []
    {
      var names :- List(disk.live);
      ListingNamesGuests(names, disk.live);
      for i := 0 to |names|
        invariant Swapping(old(disk), disk) && disk.stage == old(disk.stage)
        invariant Guest(disk.live).Keys == RestGuests(names, i)
        invariant disk.live.Keys !! Entries(disk.rollback).Keys
        invariant old(fates) == [] ==> fates == []
      {
        RestGuestsDropsFirst(names, i);
        if names[i] !in PRESERVED {
          ghost var was := disk;
          :- MoveEntryAside(names[i]);
          SwappingIsTransitive(old(disk), was, disk);
        }
      }
      o := Done;
    }

    method MoveEntryAside(name: Name) returns (o: Outcome)
      requires Swapping(disk, disk) && disk.journal.value.phase.Moving?
      requires name in disk.live && name !in PRESERVED
      requires disk.live.Keys !! Entries(disk.rollback).Keys
      modifies this`disk, this`fates
      ensures if o.Done? then disk == MovedAside(old(disk), name) else disk == old(disk)
      ensures Swapping(old(disk), disk)
      ensures o.Done? ==> Guest(disk.live).Keys == Guest(old(disk).live).Keys - {name}
      ensures disk.live.Keys !! Entries(disk.rollback).Keys
      ensures old(fates) == [] ==> o.Done? && fates == []
    {
      MovingAsideSwaps(disk, name);
      MovingAsideSeparates(disk, name);
      o := Atomically(MovedAside(disk, name));
    }

    /** Move every staged entry into the live directory. */
    method InstallAll(incoming: seq<Name>) returns (o: Outcome)
      requires Swapping(disk, disk) && disk.journal.value == Journal(Installing, incoming, [])
      requires Guest(disk.live) == map[] && disk.stage.Some?
      requires Lists(incoming, disk.stage.value.Keys)
      modifies this`disk, this`fates
      ensures Swapping(old(disk), disk)
      ensures disk.stage.Some? && InTransit(old(disk).stage.value, Guest(disk.live), disk.stage.value)
      ensures o.Done? ==> Guest(disk.live) == old(disk).stage.value
      ensures old(fates) == [] ==> o.Done? && fates == []
    {
      ghost var start, staged := disk, disk.stage.value;
      for i := 0 to |incoming|
        invariant Filling(start, disk, staged, Rest(incoming, i))
        invariant old(fates) == [] ==> fates == []
      {
        RestDropsFirst(incoming, i);
        :- InstallEntry(incoming[i], start, staged, Rest(incoming, i));
      }
      AllArrived(staged, Guest(disk.live), disk.stage.value);
      o := Done;
    }

    method InstallEntry(name: Name, ghost start: Disk, ghost staged: Directory, ghost left: set<Name>)
      returns (o: Outcome)
      requires Filling(start, disk, staged, left) && name in left && Replaceable(disk, name)
      modifies this`disk, this`fates
      ensures Filling(start, disk, staged, if o.Done? then left - {name} else left)
      ensures disk.journal == old(disk.journal)
      ensures old(fates) == [] ==> o.Done? && fates == []
    {
      FillingGoesOn(start, disk, staged, left, name);
      o := Atomically(Installed(disk, name));
    }

    /** Move the old entries aside and the staged ones in, under a journal that still undoes both. */
    method Exchange(incoming: seq<Name>) returns (o: Outcome)
      requires Swapping(disk, disk) && disk.journal.value == Journal(Moving, incoming, [])
      requires disk.rollback == Some(map[]) && disk.stage == Some(Incoming(archive))
      requires Lists(incoming, disk.stage.value.Keys)
      modifies this`disk, this`fates
      ensures WellFormed(disk) && RollingBack(disk) && Kept(disk.live) == old(Kept(disk.live))
      ensures disk.pending && disk.paused && disk.failed == old(disk.failed)
      ensures Recovered(disk) == old(Recovered(disk)) && MovedOnce(disk, Incoming(archive))
      ensures o.Done? ==> Guest(disk.live) == Incoming(archive)
      ensures old(fates) == [] ==> o.Done? && fates == []
    {
      o := MoveAside();
      if !o.Done? {
        return;
      }
      ReadyToInstall(disk, incoming);
      :- Atomically(BeginInstalling(disk, incoming));
      o := InstallAll(incoming);
      InstalledMovedOnce(disk, archive);
    }

    /** Swap the live entries for the staged ones, journaling each phase before it starts. */
    method Swap() returns (o: Outcome)
      requires WellFormed(disk) && Prepared(disk, archive)
      modifies this`disk, this`fates, this`committed, this`writers
      ensures WellFormed(disk) && Kept(disk.live) == old(Kept(disk.live))
      ensures disk.pending && disk.paused && disk.failed == old(disk.failed)
      ensures !o.Done? ==> Recovered(disk) == old(Recovered(disk)) && (disk.journal.Some? ==> RollingBack(disk))
      ensures !o.Done? ==> committed == old(committed) && writers == old(writers)
      ensures !o.Done? ==> MovedOnce(disk, Incoming(archive))
      ensures o.Done? ==> committed && writers == {} && disk.journal.Some? && disk.journal.value.phase.Committed?
      ensures o.Done? ==> Recovered(disk) == Incoming(archive)
      ensures old(fates) == [] ==> o.Done? && fates == []
    {
      var incoming :- List(disk.stage.value);
      :- Atomically(disk.(journal := Some(Journal(Moving, incoming, []))));
      assert Recovered(disk) == old(Recovered(disk));
      :- Exchange(incoming);
      o := Atomically(disk.(journal := Some(Journal(Committed, incoming, []))));
      if o.Done? {
        committed, writers := true, {};
      }
    }

    /** The guarded part of a restore: recover first, then prepare and swap if a restore is pending. */
    method Attempt(pending: bool, ghost before: Directory) returns (o: Outcome, applied: bool)
      requires OnCourse(before) && disk.paused && pending == disk.pending
      modifies this`disk, this`fates, this`committed, this`writers
      ensures OnCourse(before) && disk.paused
      ensures old(committed) ==> committed
      ensures committed ==> old(committed) || (old(disk.pending) && Acceptable(archive))
      ensures writers <= old(writers) + (if old(disk.pending) && MergesKeyring(archive) then {pid} else {})
      ensures disk.pending ==> old(disk.pending)
      ensures Kept(disk.live) == old(Kept(disk.live))
      ensures o.Done? ==> disk.journal.None? && applied == pending && (applied ==> committed)
      ensures o.Done? && !pending ==>
        Guest(disk.live) == old(Recovered(disk)) && disk.failed == old(disk.failed) && !disk.pending
      ensures o.Done? && pending ==> Replaced(disk, archive)
      ensures old(fates) == [] ==> fates == []
      ensures old(fates) == [] ==> (if pending && !Acceptable(archive) then o.Threw? else o.Done?)
      ensures old(fates) == [] && o.Threw? ==> disk.journal.None? && Guest(disk.live) == old(Recovered(disk))
    {
      applied := false;
      ghost var start, after := disk, Incoming(archive);
      o := Recover();
      SameOutcomeKeepsConsistent(start, disk, before, after, committed, writers);
      if !o.Done? || !pending {
        return;
      }
      ghost var recovered, writing := disk, writers;
      o := Prepare();
      PreparingKeepsConsistent(recovered, disk, before, after, committed, writing, writers, pid);
      if !o.Done? {
        return;
      }
      ghost var prepared := disk;
      o := Swap();
      if !o.Done? {
        SwapFailureKeepsConsistent(prepared, disk, before, after, committed, writers);
        return;
      }
      o := Settle();
      SettledIsConsistent(disk, before, after);
      applied := o.Done?;
    }

    /** After the commit: clear both markers and remove the journal and the work directories. */
    method Settle() returns (o: Outcome)
      requires WellFormed(disk) && disk.journal.Some? && disk.journal.value.phase.Committed?
      requires Recovered(disk) == Incoming(archive)
      modifies this`disk, this`fates
      ensures WellFormed(disk) && !RollingBack(disk) && Recovered(disk) == Incoming(archive)
      ensures Kept(disk.live) == old(Kept(disk.live)) && disk.paused == old(disk.paused)
      ensures disk.pending ==> old(disk.pending)
      ensures o.Done? ==> Replaced(disk, archive)
      ensures old(fates) == [] ==> o.Done? && fates == []
    {
      o := Atomically(disk.(pending := false));
      if !o.Done? {
        return;
      }
      :- Atomically(disk.(failed := false));
      o := Recover();
    }

    /**
     One boot's restore step. In every case, including a death at any call, it leaves the run
     consistent; left alone, it does exactly what the pending marker and the archive call for.
     */
    method ApplyPendingRestore(ghost before: Directory) returns (o: Outcome, applied: bool)
      requires OnCourse(before)
      modifies this`disk, this`fates, this`committed, this`writers
      ensures OnCourse(before)
      ensures old(committed) ==> committed
      ensures committed ==> old(committed) || (old(disk.pending) && Acceptable(archive))
      ensures writers <= old(writers) + (if old(disk.pending) && MergesKeyring(archive) then {pid} else {})
      ensures disk.pending ==> old(disk.pending)
      ensures Kept(disk.live) == old(Kept(disk.live))
      ensures o.Done? ==> Returned(disk, archive, applied) && !disk.paused && (applied ==> committed)
      ensures old(fates) == [] ==> LeftAlone(old(disk), disk, archive, o, applied) && !disk.paused
    {
      applied := false;
      var pending := disk.pending;
      if !pending && disk.journal.None? && !disk.paused {
        return Done, false;
      }
      ghost var start := disk;
      o := Pause();
      PauseKeepsOutcome(start, disk);
      SameOutcomeKeepsConsistent(start, disk, before, Incoming(archive), committed, writers);
      if !o.Done? {
        return;
      }
      ghost var paused := disk;
      o, applied := Guarded(pending, before);
      if !o.Died? && disk.journal.None? {
        ghost var guarded, was := disk, o;
        o := Finally(o);
        PauseKeepsOutcome(guarded, disk);
        SameOutcomeKeepsConsistent(guarded, disk, before, Incoming(archive), committed, writers);
      }
    }

    /** The attempt with its error handler. */
    method Guarded(pending: bool, ghost before: Directory) returns (o: Outcome, applied: bool)
      requires OnCourse(before) && disk.paused && pending == disk.pending
      modifies this`disk, this`fates, this`committed, this`writers
      ensures OnCourse(before) && Kept(disk.live) == old(Kept(disk.live))
      ensures old(committed) ==> committed
      ensures committed ==> old(committed) || (old(disk.pending) && Acceptable(archive))
      ensures writers <= old(writers) + (if old(disk.pending) && MergesKeyring(archive) then {pid} else {})
      ensures disk.pending ==> old(disk.pending)
      ensures o.Done? ==> Returned(disk, archive, applied) && (applied ==> committed)
      ensures old(fates) == [] ==> fates == [] && LeftAlone(old(disk), disk, archive, o, applied)
    {
      o, applied := Attempt(pending, before);
      if o.Threw? {
        o := RollBackAndReport(before);
      }
    }

    /** Let the agent work again; an error here replaces whatever was about to be returned. */
    method Finally(pendingOutcome: Outcome) returns (o: Outcome)
      requires WellFormed(disk) && disk.journal.None?
      modifies this`disk, this`fates
      ensures disk == old(disk).(paused := disk.paused)
      ensures o.Done? ==> pendingOutcome.Done? && !disk.paused
      ensures old(fates) == [] ==> fates == [] && o == pendingOutcome && !disk.paused
    {
      o := Resume();
      if !o.Done? {
        return;
      }
      o := pendingOutcome;
    }

    /** The error path: undo whatever was begun, leave a failure marker, give up the request, rethrow. */
    method RollBackAndReport(ghost before: Directory) returns (o: Outcome)
      requires OnCourse(before) && disk.paused
      modifies this`disk, this`fates
      ensures OnCourse(before) && disk.paused
      ensures Kept(disk.live) == old(Kept(disk.live)) && Recovered(disk) == old(Recovered(disk))
      ensures !o.Done? && (disk.pending ==> old(disk.pending))
      ensures old(fates) == [] ==> fates == [] && o.Threw? && disk.journal.None? && !disk.pending && disk.failed
    {
      o := Recover();
      if !o.Done? {
        return;
      }
      :- Atomically(disk.(failed := true));
      :- Atomically(disk.(pending := false));
      o := Threw;
    }
  }

  /** One boot: its process, the directories it recreates, and the fates of the calls its restore step makes. */
  datatype Boot = Boot(pid: nat, created: set<Name>, fates: seq<Fate>)

  /**
   A whole run: any number of boots, each cut short anywhere, and a last one left alone. It ends with
   the old entries live unless a committed journal was written, and then with the new ones; one is
   written only for a pending request and an acceptable archive. Preserved entries stay. A temporary
   keyring file is left only by an archive that carries a keyring.
   */
  method Run(host: Host, boots: seq<Boot>, last: Boot) returns (o: Outcome, applied: bool)
    requires host.disk.journal.None? && !host.committed && host.writers == {} && last.fates == []
    modifies host
    ensures host.disk.journal.None? && !host.disk.pending && !host.disk.paused && !o.Died?
    ensures
      var base := if host.committed then Incoming(host.archive) else old(Guest(host.disk.live));
      Extends(base, Guest(host.disk.live), host.writers)
    ensures host.writers != {} ==> old(host.disk.pending) && MergesKeyring(host.archive)
    ensures host.committed ==> old(host.disk.pending) && Acceptable(host.archive)
    ensures boots == [] && old(host.disk.pending) && Acceptable(host.archive) ==> host.committed
    ensures o.Done? && applied ==> host.committed && Replaced(host.disk, host.archive)
    ensures Extends(old(Kept(host.disk.live)), Kept(host.disk.live), {})
  {
    ghost var before := Guest(host.disk.live);
    RunCutShort(host, boots);
    o, applied := Start(host, last, before);
  }

  /**
   Any number of boots, each cut short anywhere, the last one too. Wherever that leaves the disk, every
   old entry is whole and in one place unless a committed journal was written; only a temporary keyring
   file from before the run may have been written over.
   */
  method RunCutShort(host: Host, boots: seq<Boot>)
    requires host.disk.journal.None? && !host.committed && host.writers == {}
    modifies host
    ensures host.OnCourse(old(Guest(host.disk.live))) && Extends(old(Kept(host.disk.live)), Kept(host.disk.live), {})
    ensures host.committed ==> old(host.disk.pending) && Acceptable(host.archive)
    ensures host.writers != {} ==> old(host.disk.pending) && MergesKeyring(host.archive)
    ensures host.disk.pending ==> old(host.disk.pending)
    ensures boots == [] ==> host.disk == old(host.disk) && !host.committed
    ensures !host.committed ==>
      forall name | name in old(Guest(host.disk.live)) && !IsTemporary(name, host.writers) ::
        Whole(host.disk, name, old(host.disk).live[name], Incoming(host.archive))
  {
    ghost var before := Guest(host.disk.live);
    for i := 0 to |boots|
      invariant host.OnCourse(before) && Extends(old(Kept(host.disk.live)), Kept(host.disk.live), {})
      invariant host.committed ==> old(host.disk.pending) && Acceptable(host.archive)
      invariant host.writers != {} ==> old(host.disk.pending) && MergesKeyring(host.archive)
      invariant host.disk.pending ==> old(host.disk.pending)
      invariant i == 0 ==> host.disk == old(host.disk) && !host.committed
    {
      var _, _ := Start(host, boots[i], before);
    }
    if !host.committed {
      forall name | name in before && !IsTemporary(name, host.writers)
        ensures Whole(host.disk, name, before[name], Incoming(host.archive))
      {
        NoOldDataLost(host.disk, before, Incoming(host.archive), host.writers, name);
      }
    }
  }

  /** One boot: it recreates directories and then runs the restore step. */
  method Start(host: Host, boot: Boot, ghost before: Directory) returns (o: Outcome, applied: bool)
    requires host.OnCourse(before)
    modifies host
    ensures host.OnCourse(before)
    ensures old(host.committed) ==> host.committed
    ensures host.committed ==> old(host.committed) || (old(host.disk.pending) && Acceptable(host.archive))
    ensures host.writers <=
      old(host.writers) + if old(host.disk.pending) && MergesKeyring(host.archive) then {boot.pid} else {}
    ensures host.disk.pending ==> old(host.disk.pending)
    ensures Extends(old(Kept(host.disk.live)), Kept(host.disk.live), {})
    ensures o.Done? && applied ==> host.committed && Replaced(host.disk, host.archive)
    ensures boot.fates == [] ==>
      LeftAlone(Booted(old(host.disk), boot.created), host.disk, host.archive, o, applied) && !host.disk.paused
  {
    BootKeepsConsistent(host.disk, boot.created, before, Incoming(host.archive), host.committed, host.writers);
    BootExtendsKept(host.disk, boot.created);
    host.disk, host.fates, host.pid := Booted(host.disk, boot.created), boot.fates, boot.pid;
    o, applied := host.ApplyPendingRestore(before);
  }

  /**
   Recovery converges: however many recoveries are cut short, with or without boots in between,
   a complete one ends where a single uninterrupted one would have, up to recreated directories.
   */
  method RecoverAtLast(host: Host, boots: seq<Boot>) returns (o: Outcome)
    requires WellFormed(host.disk)
    modifies host
    ensures o.Done? && host.disk.journal.None?
    ensures Extends(old(Recovered(host.disk)), Guest(host.disk.live), {})
    ensures (forall b | b in boots :: b.created == {}) ==> Guest(host.disk.live) == old(Recovered(host.disk))
  {
    for i := 0 to |boots|
      invariant WellFormed(host.disk)
      invariant Extends(old(Recovered(host.disk)), Recovered(host.disk), {})
      invariant (forall k | 0 <= k < i :: boots[k].created == {}) ==> Recovered(host.disk) == old(Recovered(host.disk))
    {
      BootExtendsRecovered(host.disk, boots[i].created);
      ExtendsIsTransitive(old(Recovered(host.disk)), Recovered(host.disk),
        Recovered(Booted(host.disk, boots[i].created)), {});
      assert boots[i].created == {} ==> Booted(host.disk, boots[i].created) == host.disk;
      host.disk, host.fates := Booted(host.disk, boots[i].created), boots[i].fates;
      o := host.Recover();
    }
    host.fates := [];
    o := host.Recover();
  }
}
