/** Guarded multi-file apply with rollback (compiler/annotationinstall/install.go: applyChanges). */
module ModuleInstall {
  import opened Catalog
  import opened ModuleFiles

  /**
   * A directory handle. The three functions decide, operation by operation, whether it faults, how much of a
   * failing write reaches the file, and whether the context is found cancelled; nonces are the random suffixes.
   * `history` records the directory after every operation.
   */
  class Root {
    const faulty: nat -> bool
    const written: nat -> nat
    const cancelled: nat -> bool
    const nonces: nat -> Option<string>
    var files: Files
    var clock: nat
    var draws: nat
    ghost var history: seq<Files>

    constructor (files: Files, faulty: nat -> bool, written: nat -> nat, cancelled: nat -> bool,
                 nonces: nat -> Option<string>)
      ensures this.files == files && clock == 0 && draws == 0 && history == [files]
      ensures this.faulty == faulty && this.written == written && this.cancelled == cancelled && this.nonces == nonces
    {
      this.files, this.faulty, this.written, this.cancelled, this.nonces := files, faulty, written, cancelled, nonces;
      clock, draws := 0, 0;
      history := [files];
    }

    method Fault() returns (fault: bool)
      modifies this`clock
      ensures fault == faulty(old(clock)) && clock == old(clock) + 1
    {
      fault := faulty(clock);
      clock := clock + 1;
    }

    method Cancelled() returns (done: bool)
      modifies this`clock
      ensures done == cancelled(old(clock)) && clock == old(clock) + 1
    {
      done := cancelled(clock);
      clock := clock + 1;
    }

    method RandomSuffix() returns (suffix: Option<string>)
      modifies this`draws
      ensures suffix == nonces(old(draws)) && draws == old(draws) + 1
    {
      suffix := nonces(draws);
      draws := draws + 1;
    }

    method CreateExclusive(name: string) returns (ok: bool)
      modifies this`files, this`clock, this`history
      ensures clock == old(clock) + 1 && (ok <==> !faulty(old(clock)) && name !in old(files))
      ensures files == if ok then old(files)[name := ""] else old(files)
      ensures history == old(history) + [files]
    {
      var fault := Fault();
      ok := !fault && name !in files;
      if ok { files := files[name := ""]; }
      history := history + [files];
    }

    /** Writes, syncs and closes; a failing write leaves some prefix. */
    method WriteAll(name: string, content: string) returns (ok: bool)
      requires name in files
      modifies this`files, this`clock, this`history
      ensures clock == old(clock) + 1 && ok == !faulty(old(clock))
      ensures name in files && files == old(files)[name := files[name]]
      ensures (if ok then files[name] == content else files[name] <= content)
      ensures history == old(history) + [files]
    {
      var fault := Fault();
      var length := written(clock);
      ok := !fault;
      files := files[name := if ok || |content| < length then content else content[..length]];
      history := history + [files];
    }

    method Rename(from: string, to: string) returns (ok: bool)
      requires from != to
      modifies this`files, this`clock, this`history
      ensures clock == old(clock) + 1 && (ok <==> !faulty(old(clock)) && from in old(files))
      ensures files == if ok then (old(files) - {from})[to := old(files)[from]] else old(files)
      ensures history == old(history) + [files]
    {
      var fault := Fault();
      ok := !fault && from in files;
      if ok { files := (files - {from})[to := files[from]]; }
      history := history + [files];
    }

    /** A missing file is not an error, and the empty name is no file. */
    method RemoveIfExists(name: string) returns (ok: bool)
      modifies this`files, this`clock, this`history
      ensures name == "" ==> ok && clock == old(clock)
      ensures name != "" ==> clock == old(clock) + 1 && ok == !faulty(old(clock))
      ensures files == if ok && name != "" then old(files) - {name} else old(files)
      ensures history == old(history) + [files]
    {
      if name == "" {
        ok := true;
      } else {
        var fault := Fault();
        ok := !fault;
        if ok { files := files - {name}; }
      }
      history := history + [files];
    }

    /** None when the status cannot be read. */
    method Exists(name: string) returns (found: Option<bool>)
      modifies this`clock
      ensures clock == old(clock) + 1
      ensures found == if faulty(old(clock)) then None else Some(name in files)
    {
      var fault := Fault();
      found := if fault then None else Some(name in files);
    }

    method Read(name: string) returns (content: Option<string>)
      modifies this`clock
      ensures clock == old(clock) + 1
      ensures content == if faulty(old(clock)) then None else At(files, name)
    {
      var fault := Fault();
      content := if fault then None else At(files, name);
    }
  }

  datatype Cause = ContextCancelled | StageFailed | StalePreview | BackupFailed | InstallFailed

  /** `undone` is false when some cleaning-up operation failed too. */
  datatype Outcome = Applied | CleanupIncomplete | Failed(cause: Cause, undone: bool)

  ghost predicate NoFaults(faulty: nat -> bool, from: nat, to: nat) { forall t: nat :: from <= t < to ==> !faulty(t) }

  /** The operation just before `turn` faulted. */
  ghost predicate FaultAt(faulty: nat -> bool, turn: nat) { turn > 0 && faulty(turn - 1) }

  /** The original the preview saw is no longer there. */
  ghost predicate Gone(change: FileChange, base: Files) { change.before.exists_ && change.name !in base }

  /** The file is there with other content than previewed, or was created after the preview. */
  ghost predicate Stale(change: FileChange, base: Files) {
    change.name in base && !(change.before.exists_ && base[change.name] == change.before.content)
  }

  function PlanOf(change: FileChange, suffix: string): Plan {
    Plan(change.name, Image(change.after), TemporaryName(change.name, suffix), BackupName(change.name, suffix))
  }

  // ----- Steps confined to one change ------------------------------------------------------------

  /** Only this change's names may differ, and its original file stays readable. */
  ghost predicate LocalStep(p: Plan, base: Files, before: Files, after: Files) {
    && (forall name :: !Owns(p, name) ==> At(after, name) == At(before, name))
    && (p.name in base ==> Readable(p, base, after))
  }

  ghost predicate LocalHistory(p: Plan, base: Files, before: Files, history: seq<Files>, from: nat) {
    forall k :: from <= k < |history| ==> LocalStep(p, base, before, history[k])
  }

  /** The flags on record agree with the change's actual progress. */
  ghost predicate Tracks(item: Staged, p: Plan, g: Progress) {
    && item.temporary == (if g.staged then p.temporary else "")
    && item.backedUp == g.backedUp && item.installed == g.installed
  }

  ghost predicate Describes(item: Staged, p: Plan) {
    item.change.name == p.name && Image(item.change.after) == p.after && item.backup == p.backup
  }

  ghost predicate Separate(p: Plan, base: Files) {
    && p.temporary !in base && p.backup !in base && p.temporary != "" && p.backup != "" && p.name != ""
    && p.name != p.temporary && p.name != p.backup && p.temporary != p.backup
  }

  /** Only one name may differ. */
  ghost predicate OnlyAt(name: string, before: Files, after: Files) {
    forall n :: n != name ==> At(after, n) == At(before, n)
  }

  lemma NoStep(p: Plan, base: Files, files: Files, g: Progress)
    requires Holds(p, g, base, files)
    ensures LocalStep(p, base, files, files)
  {
  }

  lemma TemporaryMoves(p: Plan, base: Files, before: Files, files: Files, files': Files)
    requires Separate(p, base) && LocalStep(p, base, before, files) && OnlyAt(p.temporary, files, files')
    ensures LocalStep(p, base, before, files')
  {
  }

  lemma TemporaryHolds(p: Plan, g: Progress, base: Files, files: Files, files': Files)
    requires Separate(p, base) && Holds(p, g, base, files) && OnlyAt(p.temporary, files, files') && !g.installed
    ensures At(files', p.temporary) == None ==> Holds(p, g.(staged := false), base, files')
    ensures At(files', p.temporary) == p.after && p.after.Some? ==> Holds(p, g.(staged := true), base, files')
  {
  }

  lemma LocalHistoryGrows(p: Plan, base: Files, before: Files, history: seq<Files>, from: nat, files: Files)
    requires LocalHistory(p, base, before, history, from) && LocalStep(p, base, before, files)
    ensures LocalHistory(p, base, before, history + [files], from)
  {
  }

  /** Stages one change; on failure `clean` says whether the half-written file is gone. */
  method StageChange(root: Root, change: FileChange, ghost base: Files)
      returns (item: Staged, ok: bool, clean: bool, ghost turn: nat)
    requires root.nonces(root.draws).Some? ==>
               var p := PlanOf(change, root.nonces(root.draws).value);
               Separate(p, base) && Holds(p, NOT_STARTED, base, root.files)
    modifies root
    ensures root.draws == old(root.draws) + 1 && old(root.history) <= root.history
    ensures old(root.clock) <= turn <= root.clock && (NoFaults(root.faulty, turn, root.clock) ==> clean)
    ensures !ok && old(root.nonces(root.draws)).Some? ==> FaultAt(root.faulty, turn)
    ensures old(root.nonces(root.draws)).None? ==>
              !ok && clean && root.files == old(root.files) && root.history == old(root.history)
    ensures old(root.nonces(root.draws)).Some? ==>
              var p := PlanOf(change, old(root.nonces(root.draws)).value);
              && LocalStep(p, base, old(root.files), root.files)
              && LocalHistory(p, base, old(root.files), root.history, |old(root.history)|)
              && (ok ==> var g := Progress(change.after.exists_, false, false);
                         Holds(p, g, base, root.files) && Tracks(item, p, g) && Describes(item, p)
                         && item.change == change)
              && (!ok && clean ==> Holds(p, NOT_STARTED, base, root.files))
  {
    hide Holds, LocalStep, LocalHistory, Separate;
    clean, turn := true, root.clock;
    var drawn := root.RandomSuffix();
    item := Staged(change, "", "", false, false);
    if drawn.None? { return item, false, true, turn; }
    ghost var p := PlanOf(change, drawn.value);
    item := Staged(change, TemporaryName(change.name, drawn.value), BackupName(change.name, drawn.value), false, false);
    ghost var before, from := root.files, |root.history|;
    NoStep(p, base, before, NOT_STARTED);
    EmptyHistory(p, base, before, root.history);
    if !change.after.exists_ {
      item := item.(temporary := "");
      return item, true, true, turn;
    }
    StagingNameIsNew(p, base, before);
    ok := root.CreateExclusive(item.temporary);
    turn := root.clock;
    TemporaryMoves(p, base, before, before, root.files);
    LocalHistoryGrows(p, base, before, old(root.history), from, root.files);
    if !ok { return item, false, true, turn; }
    ghost var created, history := root.files, root.history;
    ok := root.WriteAll(item.temporary, change.after.content);
    turn := root.clock;
    TemporaryMoves(p, base, before, created, root.files);
    LocalHistoryGrows(p, base, before, history, from, root.files);
    if ok {
      TemporaryHolds(p, NOT_STARTED, base, before, root.files);
    } else {
      ghost var torn, history := root.files, root.history;
      clean := root.RemoveIfExists(item.temporary);
      TemporaryMoves(p, base, before, torn, root.files);
      LocalHistoryGrows(p, base, before, history, from, root.files);
      if clean { TemporaryHolds(p, NOT_STARTED, base, before, root.files); }
    }
  }

  lemma StagingNameIsNew(p: Plan, base: Files, files: Files)
    requires Holds(p, NOT_STARTED, base, files)
    ensures p.temporary !in files
  {
  }

  lemma EmptyHistory(p: Plan, base: Files, before: Files, history: seq<Files>)
    ensures LocalHistory(p, base, before, history, |history|)
  {
  }

  /** Moves the original aside and checks it against the preview; without an original, checks there is still none. */
  method BackupChange(root: Root, item: Staged, ghost p: Plan, ghost g: Progress, ghost base: Files)
      returns (result: Staged, failure: Option<Cause>, ghost moved: Progress)
    requires Separate(p, base) && Holds(p, g, base, root.files) && !g.backedUp && !g.installed
    requires Tracks(item, p, g) && Describes(item, p)
    modifies root
    ensures old(root.history) <= root.history && root.draws == old(root.draws)
    ensures LocalStep(p, base, old(root.files), root.files)
    ensures LocalHistory(p, base, old(root.files), root.history, |old(root.history)|)
    ensures Holds(p, moved, base, root.files) && moved == g.(backedUp := moved.backedUp)
    ensures Tracks(result, p, moved) && Describes(result, p) && result.change == item.change
    ensures failure == None ==>
              At(base, p.name) == Image(item.change.before) && moved.backedUp == item.change.before.exists_
    ensures failure == Some(BackupFailed) <==> FaultAt(root.faulty, root.clock) || Gone(item.change, base)
    ensures failure == Some(StalePreview) <==> !FaultAt(root.faulty, root.clock) && Stale(item.change, base)
    ensures failure.Some? ==> failure.value in {StalePreview, BackupFailed}
    ensures old(root.clock) <= root.clock
  {
    result, moved, failure := item, g, None;
    EmptyHistory(p, base, root.files, root.history);
    if !item.change.before.exists_ {
      var found := root.Exists(item.change.name);
      if found == Some(true) { failure := Some(StalePreview); }
      if found == None { failure := Some(BackupFailed); }
      return;
    }
    var ok := root.Rename(item.change.name, item.backup);
    if !ok {
      failure := Some(BackupFailed);
      return;
    }
    result := item.(backedUp := true);
    moved := g.(backedUp := true);
    var content := root.Read(item.backup);
    if content == None { return result, Some(BackupFailed), moved; }
    if content != Some(item.change.before.content) { failure := Some(StalePreview); }
  }

  /** Moves the staged file into place; a deletion has nothing to move. */
  method InstallChange(root: Root, item: Staged, ghost p: Plan, ghost g: Progress, ghost base: Files)
      returns (result: Staged, ok: bool, ghost moved: Progress)
    requires Separate(p, base) && Holds(p, g, base, root.files) && !g.installed && g.staged == p.after.Some?
    requires Tracks(item, p, g) && Describes(item, p) && At(base, p.name) == Image(item.change.before)
    requires g.backedUp == item.change.before.exists_
    modifies root
    ensures old(root.history) <= root.history && root.draws == old(root.draws)
    ensures LocalStep(p, base, old(root.files), root.files)
    ensures LocalHistory(p, base, old(root.files), root.history, |old(root.history)|)
    ensures Holds(p, moved, base, root.files) && Tracks(result, p, moved) && Describes(result, p)
    ensures result.change == item.change
    ensures moved == (if ok then Progress(false, g.backedUp, true) else g)
    ensures old(root.clock) <= root.clock && (!ok ==> FaultAt(root.faulty, root.clock))
  {
    result, moved := item, g;
    EmptyHistory(p, base, root.files, root.history);
    if !item.change.after.exists_ {
      result := item.(installed := true);
      moved := Progress(false, g.backedUp, true);
      return result, true, moved;
    }
    ok := root.Rename(item.temporary, item.change.name);
    if ok {
      result := item.(installed := true, temporary := "");
      moved := Progress(false, g.backedUp, true);
    }
  }

  /** Undoes one change; when an operation fails the original file is still at its name or at the backup. */
  method RollbackItem(root: Root, item: Staged, ghost p: Plan, ghost g: Progress, ghost base: Files) returns (ok: bool)
    requires Separate(p, base) && Holds(p, g, base, root.files) && Tracks(item, p, g) && Describes(item, p)
    modifies root
    ensures old(root.history) <= root.history && root.draws == old(root.draws)
    ensures LocalStep(p, base, old(root.files), root.files)
    ensures LocalHistory(p, base, old(root.files), root.history, |old(root.history)|)
    ensures ok ==> Holds(p, NOT_STARTED, base, root.files)
    ensures old(root.clock) <= root.clock && (NoFaults(root.faulty, old(root.clock), root.clock) ==> ok)
  {
    ok := true;
    if item.installed && item.change.after.exists_ {
      var removed := root.RemoveIfExists(item.change.name);
      ok := ok && removed;
    }
    if item.backedUp {
      var restored := root.Rename(item.backup, item.change.name);
      ok := ok && restored;
    }
    if item.temporary != "" {
      var removed := root.RemoveIfExists(item.temporary);
      ok := ok && removed;
    }
  }

  // ----- All changes together --------------------------------------------------------------------

  ghost predicate AllSeparate(plans: seq<Plan>, base: Files) {
    forall i :: 0 <= i < |plans| ==> Separate(plans[i], base)
  }

  /**
   * Every change stands exactly where its progress says, except those in `loose`, whose originals are still
   * readable.
   */
  ghost predicate AllSafe(plans: seq<Plan>, g: seq<Progress>, base: Files, files: Files, loose: set<int>) {
    && |g| == |plans| && OthersKept(plans, base, files)
    && forall i :: 0 <= i < |plans| ==>
         if i in loose then (plans[i].name in base ==> Readable(plans[i], base, files))
         else Holds(plans[i], g[i], base, files)
  }

  lemma SafeLosesNothing(plans: seq<Plan>, g: seq<Progress>, base: Files, files: Files, loose: set<int>)
    requires AllSafe(plans, g, base, files, loose)
    ensures NothingLost(plans, base, files)
  {
    forall i | 0 <= i < |plans| && plans[i].name in base ensures Readable(plans[i], base, files) {
      if i !in loose { assert Holds(plans[i], g[i], base, files); }
    }
  }

  lemma Lift(plans: seq<Plan>, g: seq<Progress>, base: Files, files: Files, files': Files, loose: set<int>, k: nat)
    requires Fresh(plans, base) && AllSafe(plans, g, base, files, loose) && k < |plans|
    requires LocalStep(plans[k], base, files, files')
    ensures AllSafe(plans, g, base, files', loose + {k})
  {
    forall i | 0 <= i < |plans| && i != k
      ensures if i in loose then (plans[i].name in base ==> Readable(plans[i], base, files'))
              else Holds(plans[i], g[i], base, files')
    {
      var p := plans[i];
      assert Owns(p, p.name) && Owns(p, p.temporary) && Owns(p, p.backup);
      assert At(files', p.name) == At(files, p.name) && At(files', p.temporary) == At(files, p.temporary)
          && At(files', p.backup) == At(files, p.backup);
    }
    forall name ensures At(files', name) == At(base, name) || exists i :: 0 <= i < |plans| && Owns(plans[i], name) {
      if !Owns(plans[k], name) { assert At(files', name) == At(files, name); }
    }
  }

  lemma LiftHolds(plans: seq<Plan>, g: seq<Progress>, base: Files, files: Files, files': Files, loose: set<int>,
                  k: nat, moved: Progress)
    requires Fresh(plans, base) && AllSafe(plans, g, base, files, loose) && k < |plans|
    requires LocalStep(plans[k], base, files, files') && Holds(plans[k], moved, base, files')
    ensures AllSafe(plans, g[k := moved], base, files', loose - {k})
  {
    Lift(plans, g, base, files, files', loose, k);
    hide Holds, Readable, OthersKept;
  }

  ghost predicate HistoryKept(plans: seq<Plan>, base: Files, history: seq<Files>, from: nat) {
    forall k :: from <= k < |history| ==> NothingLost(plans, base, history[k])
  }

  lemma LiftHistory(plans: seq<Plan>, g: seq<Progress>, base: Files, files: Files, loose: set<int>, k: nat,
                    before: seq<Files>, history: seq<Files>, from: nat)
    requires Fresh(plans, base) && AllSafe(plans, g, base, files, loose) && k < |plans|
    requires HistoryKept(plans, base, before, from) && before <= history
    requires LocalHistory(plans[k], base, files, history, |before|)
    ensures HistoryKept(plans, base, history, from)
  {
    forall j | from <= j < |history| ensures NothingLost(plans, base, history[j]) {
      if j < |before| {
        assert history[j] == before[j];
      } else {
        hide AllSafe;
        Lift(plans, g, base, files, history[j], loose, k);
        SafeLosesNothing(plans, g, base, history[j], loose + {k});
      }
    }
  }

  lemma NothingInProgressIsInitial(plans: seq<Plan>, g: seq<Progress>, base: Files, files: Files)
    requires Fresh(plans, base) && AllSafe(plans, g, base, files, {}) && Untouched(g)
    ensures files == base
  {
    UntouchedIsInitial(plans, g, base, files);
  }

  ghost predicate AllTracked(staged: seq<Staged>, plans: seq<Plan>, g: seq<Progress>) {
    |staged| == |plans| == |g| && forall i :: 0 <= i < |plans| ==>
      Tracks(staged[i], plans[i], g[i]) && Describes(staged[i], plans[i])
  }

  /**
   * Undoes every change, last first. With no fault the directory is exactly what it was; with faults nothing is
   * lost.
   */
  method RollbackChanges(root: Root, staged: seq<Staged>, ghost plans: seq<Plan>, ghost g0: seq<Progress>,
                         ghost base: Files, ghost from: nat)
      returns (ok: bool)
    requires Fresh(plans, base) && AllSeparate(plans, base) && AllSafe(plans, g0, base, root.files, {})
    requires AllTracked(staged, plans, g0)
    requires HistoryKept(plans, base, root.history, from)
    modifies root
    ensures old(root.history) <= root.history && HistoryKept(plans, base, root.history, from)
    ensures NothingLost(plans, base, root.files)
    ensures ok ==> root.files == base
    ensures old(root.clock) <= root.clock && (NoFaults(root.faulty, old(root.clock), root.clock) ==> ok)
  {
    hide AllSafe, HistoryKept, LocalStep, LocalHistory, Holds, Fresh, NothingLost, Tracks, Describes, Separate;
    ok := true;
    ghost var g, loose: set<int> := g0, {};
    for k := |staged| downto 0
      invariant |g| == |g0| && (forall j :: 0 <= j < k ==> g[j] == g0[j])
      invariant (forall j :: k <= j < |g| ==> g[j] == NOT_STARTED)
      invariant AllSafe(plans, g, base, root.files, loose)
      invariant (forall j :: j in loose ==> k <= j < |plans|) && (ok ==> loose == {})
      invariant old(root.history) <= root.history && HistoryKept(plans, base, root.history, from)
      invariant old(root.clock) <= root.clock && (NoFaults(root.faulty, old(root.clock), root.clock) ==> ok)
    {
      ghost var files, history := root.files, root.history;
      SafeAt(plans, g, base, files, loose, k);
      var undone := RollbackItem(root, staged[k], plans[k], g[k], base);
      LiftHistory(plans, g, base, files, loose, k, history, root.history, from);
      if undone {
        LiftHolds(plans, g, base, files, root.files, loose, k, NOT_STARTED);
        loose := loose - {k};
      } else {
        Lift(plans, g, base, files, root.files, loose, k);
        LooseProgressIsFree(plans, g, base, root.files, loose + {k}, k, NOT_STARTED);
        loose := loose + {k};
        ok := false;
      }
      g := g[k := NOT_STARTED];
    }
    SafeLosesNothing(plans, g, base, root.files, loose);
    if ok { NothingInProgressIsInitial(plans, g, base, root.files); }
  }

  lemma SafeAt(plans: seq<Plan>, g: seq<Progress>, base: Files, files: Files, loose: set<int>, k: nat)
    requires AllSafe(plans, g, base, files, loose) && k < |plans| && k !in loose
    ensures |g| == |plans| && Holds(plans[k], g[k], base, files)
  {
  }

  lemma LooseProgressIsFree(plans: seq<Plan>, g: seq<Progress>, base: Files, files: Files, loose: set<int>, k: nat,
                            any: Progress)
    requires AllSafe(plans, g, base, files, loose) && k < |plans| && k in loose
    ensures AllSafe(plans, g[k := any], base, files, loose)
  {
  }

  const NO_CHANGE := FileChange("", FileState(false, ""), FileState(false, ""))

  const ZERO_STAGED := Staged(NO_CHANGE, "", "", false, false)

  /** The plans of the changes, up to the first nonce that cannot be drawn. */
  ghost function Plans(changes: seq<FileChange>, nonces: nat -> Option<string>, draw: nat): seq<Plan>
    decreases |changes|
  {
    if changes == [] || nonces(draw).None? then []
    else [PlanOf(changes[0], nonces(draw).value)] + Plans(changes[1..], nonces, draw + 1)
  }

  /** The i-th plan uses the i-th nonce drawn. */
  ghost predicate PlanAt(changes: seq<FileChange>, nonces: nat -> Option<string>, draw: nat, plans: seq<Plan>, i: nat) {
    i < |plans| && i < |changes| && nonces(draw + i).Some? && plans[i] == PlanOf(changes[i], nonces(draw + i).value)
  }

  lemma {:induction false} PlansFollowNonces(changes: seq<FileChange>, nonces: nat -> Option<string>, draw: nat)
    ensures |Plans(changes, nonces, draw)| <= |changes|
    ensures |Plans(changes, nonces, draw)| < |changes| ==> nonces(draw + |Plans(changes, nonces, draw)|).None?
    ensures forall i: nat :: i < |Plans(changes, nonces, draw)| ==>
              PlanAt(changes, nonces, draw, Plans(changes, nonces, draw), i)
    decreases |changes|
  {
    var r := Plans(changes, nonces, draw);
    if changes != [] && nonces(draw).Some? {
      PlansFollowNonces(changes[1..], nonces, draw + 1);
      var rest := Plans(changes[1..], nonces, draw + 1);
      assert r == [PlanOf(changes[0], nonces(draw).value)] + rest;
      forall i: nat | i < |r| ensures PlanAt(changes, nonces, draw, r, i) {
        if i > 0 {
          var h: nat := i - 1;
          assert PlanAt(changes[1..], nonces, draw + 1, rest, h);
          assert draw + 1 + h == draw + i && r[i] == rest[h] && changes[i] == changes[1..][h];
        } else {
          assert draw + i == draw;
        }
      }
      assert draw + 1 + |rest| == draw + |r|;
    } else {
      assert r == [] && draw + |r| == draw;
    }
  }

  /** Only staging has happened: the first `done` changes are staged, the records after them are still zero. */
  ghost predicate Staging(staged: seq<Staged>, changes: seq<FileChange>, plans: seq<Plan>, g: seq<Progress>,
                          done: nat) {
    && |staged| == |changes| && |g| == |plans| && done <= |plans| <= |changes|
    && (forall i :: 0 <= i < done ==>
          && g[i] == Progress(changes[i].after.exists_, false, false)
          && Tracks(staged[i], plans[i], g[i]) && Describes(staged[i], plans[i]) && staged[i].change == changes[i])
    && (forall i :: done <= i < |plans| ==> g[i] == NOT_STARTED)
    && (forall i :: done <= i < |staged| ==> staged[i] == ZERO_STAGED)
  }

  /** Removes staged files after a failed staging. */
  method CleanupStaged(root: Root, staged: seq<Staged>, ghost changes: seq<FileChange>, ghost plans: seq<Plan>,
                       ghost g0: seq<Progress>, ghost done: nat, ghost base: Files, ghost from: nat,
                         ghost loose: set<int>)
      returns (ok: bool)
    requires Fresh(plans, base) && AllSeparate(plans, base) && AllSafe(plans, g0, base, root.files, loose)
    requires Staging(staged, changes, plans, g0, done) && forall j :: j in loose ==> done <= j < |plans|
    requires HistoryKept(plans, base, root.history, from)
    modifies root
    ensures old(root.history) <= root.history && HistoryKept(plans, base, root.history, from)
    ensures NothingLost(plans, base, root.files)
    ensures ok && loose == {} ==> root.files == base
    ensures old(root.clock) <= root.clock && (NoFaults(root.faulty, old(root.clock), root.clock) ==> ok)
  {
    hide AllSafe, HistoryKept, LocalStep, LocalHistory, Holds, Fresh, NothingLost, OnlyAt, Separate;
    ok := true;
    ghost var g, open := g0, loose;
    for k := 0 to |staged|
      invariant |g| == |plans|
      invariant forall j :: 0 <= j < k && j < |plans| ==> g[j] == NOT_STARTED
      invariant forall j :: k <= j < |plans| ==> g[j] == g0[j]
      invariant AllSafe(plans, g, base, root.files, open)
      invariant (forall j :: j in open ==> (0 <= j < k && j < |plans|) || j in loose) && (ok ==> open <= loose)
      invariant old(root.history) <= root.history && HistoryKept(plans, base, root.history, from)
      invariant old(root.clock) <= root.clock && (NoFaults(root.faulty, old(root.clock), root.clock) ==> ok)
    {
      if staged[k].temporary != "" {
        ghost var files, history := root.files, root.history;
        assert k < done && k !in loose && k !in open;
        SafeAt(plans, g, base, files, open, k);
        var removed := root.RemoveIfExists(staged[k].temporary);
        NoStep(plans[k], base, files, g[k]);
        EmptyHistory(plans[k], base, files, history);
        RemovalIsLocal(files, root.files, plans[k].temporary);
        TemporaryMoves(plans[k], base, files, files, root.files);
        LocalHistoryGrows(plans[k], base, files, history, |history|, root.files);
        LiftHistory(plans, g, base, files, open, k, history, root.history, from);
        if removed {
          TemporaryHolds(plans[k], g[k], base, files, root.files);
          LiftHolds(plans, g, base, files, root.files, open, k, NOT_STARTED);
          open := open - {k};
        } else {
          Lift(plans, g, base, files, root.files, open, k);
          LooseProgressIsFree(plans, g, base, root.files, open + {k}, k, NOT_STARTED);
          open := open + {k};
          ok := false;
        }
        g := g[k := NOT_STARTED];
      } else {
        NothingStagedThere(staged, changes, plans, g0, done, k, base);
      }
    }
    SafeLosesNothing(plans, g, base, root.files, open);
    if ok && loose == {} {
      assert open == {};
      NothingInProgressIsInitial(plans, g, base, root.files);
    }
  }

  lemma RemovalIsLocal(files: Files, files': Files, name: string)
    requires files' == files || files' == files - {name}
    ensures OnlyAt(name, files, files')
    ensures files' == files - {name} ==> At(files', name) == None
  {
  }

  lemma NothingStagedThere(staged: seq<Staged>, changes: seq<FileChange>, plans: seq<Plan>, g: seq<Progress>,
                           done: nat, k: nat, base: Files)
    requires Staging(staged, changes, plans, g, done) && AllSeparate(plans, base) && k < |staged|
    requires staged[k].temporary == ""
    ensures k < |plans| ==> g[k] == NOT_STARTED
  {
    if k < done { assert Tracks(staged[k], plans[k], g[k]) && Separate(plans[k], base); }
  }

  // ----- After the point of no return ------------------------------------------------------------

  /** Every change is installed; those in `kept` still have their backup. */
  ghost predicate Installed(plans: seq<Plan>, base: Files, files: Files, kept: set<int>) {
    && OthersKept(plans, base, files) && AfterImagesInPlace(plans, files)
    && (forall i :: 0 <= i < |plans| ==> At(files, plans[i].temporary) == None)
    && (forall i :: 0 <= i < |plans| && i !in kept ==> At(files, plans[i].backup) == None)
  }

  ghost predicate HistoryInstalled(plans: seq<Plan>, history: seq<Files>, from: nat) {
    forall k :: from <= k < |history| ==> AfterImagesInPlace(plans, history[k])
  }

  lemma BackupRemoved(plans: seq<Plan>, base: Files, files: Files, files': Files, kept: set<int>, k: nat)
    requires Fresh(plans, base) && AllSeparate(plans, base) && Installed(plans, base, files, kept) && k < |plans|
    requires files' == files || files' == files - {plans[k].backup}
    ensures Installed(plans, base, files', if files' == files then kept else kept - {k})
  {
    var p := plans[k];
    assert Owns(p, p.backup) && Separate(p, base);
    forall i | 0 <= i < |plans| && i != k
      ensures plans[i].name != p.backup && plans[i].temporary != p.backup && plans[i].backup != p.backup
    {
      assert Owns(plans[i], plans[i].name) && Owns(plans[i], plans[i].temporary) && Owns(plans[i], plans[i].backup);
      assert !Owns(plans[i], p.backup) by { if i < k { assert Owns(plans[i], plans[i].backup); } }
    }
    assert forall name :: name != p.backup ==> At(files', name) == At(files, name);
  }

  lemma InstalledIsAfterImage(plans: seq<Plan>, base: Files, files: Files)
    requires Fresh(plans, base) && AllSeparate(plans, base) && Installed(plans, base, files, {})
    ensures IsAfterImage(plans, base, files)
  {
    forall name ensures At(files, name) == At(base, name) || exists i :: 0 <= i < |plans| && plans[i].name == name {
      if i :| 0 <= i < |plans| && Owns(plans[i], name) { assert Separate(plans[i], base); }
    }
  }

  /** Removes one backup if its change has one. */
  method RemoveBackup(root: Root, item: Staged, ghost plans: seq<Plan>, ghost base: Files, ghost k: nat,
                      ghost kept: set<int>, ghost from: nat)
      returns (ok: bool, ghost left: set<int>)
    requires Fresh(plans, base) && AllSeparate(plans, base) && k < |plans| && Installed(plans, base, root.files, kept)
    requires Describes(item, plans[k]) && (k in kept ==> item.backedUp)
    requires HistoryInstalled(plans, root.history, from)
    modifies root
    ensures old(root.history) <= root.history && HistoryInstalled(plans, root.history, from)
    ensures Installed(plans, base, root.files, left) && left <= kept && (ok ==> left == kept - {k})
    ensures old(root.clock) <= root.clock && (NoFaults(root.faulty, old(root.clock), root.clock) ==> ok)
  {
    hide Installed, HistoryInstalled, Fresh, AllSeparate;
    ok, left := true, kept;
    if item.backedUp {
      ghost var files, history := root.files, root.history;
      BackupNamed(plans, base, k);
      ok := root.RemoveIfExists(item.backup);
      BackupRemoved(plans, base, files, root.files, kept, k);
      left := if root.files == files then kept else kept - {k};
      InstalledHistoryGrows(plans, base, history, root.files, left, from);
      if ok {
        if root.files == files { AlreadyGone(plans, base, files, kept, k); }
        left := kept - {k};
      }
    } else {
      assert kept - {k} == kept;
    }
  }

  /** Removes the backups of installed changes. */
  method CleanupBackups(root: Root, staged: seq<Staged>, ghost plans: seq<Plan>, ghost g: seq<Progress>,
                        ghost base: Files)
      returns (ok: bool)
    requires Fresh(plans, base) && AllSeparate(plans, base) && AllSafe(plans, g, base, root.files, {})
    requires AllTracked(staged, plans, g)
    requires forall i :: 0 <= i < |g| ==> g[i].installed && !g[i].staged
    modifies root
    ensures old(root.history) <= root.history && HistoryInstalled(plans, root.history, |old(root.history)|)
    ensures AfterImagesInPlace(plans, root.files) && OthersKept(plans, base, root.files)
    ensures ok ==> IsAfterImage(plans, base, root.files)
    ensures old(root.clock) <= root.clock && (NoFaults(root.faulty, old(root.clock), root.clock) ==> ok)
  {
    AllInstalled(plans, g, base, root.files);
    ghost var kept;
    ok, kept := RemoveBackups(root, staged, plans, base, set i | 0 <= i < |g| && g[i].backedUp);
    InstalledFacts(plans, base, root.files, kept);
    if ok { InstalledIsAfterImage(plans, base, root.files); }
  }

  method RemoveBackups(root: Root, staged: seq<Staged>, ghost plans: seq<Plan>, ghost base: Files,
                       ghost backups: set<int>)
      returns (ok: bool, ghost kept: set<int>)
    requires Fresh(plans, base) && AllSeparate(plans, base) && Installed(plans, base, root.files, backups)
    requires |staged| == |plans|
    requires forall k :: 0 <= k < |plans| ==> Describes(staged[k], plans[k])
    requires forall k :: k in backups ==> 0 <= k < |plans| && staged[k].backedUp
    modifies root
    ensures old(root.history) <= root.history && HistoryInstalled(plans, root.history, |old(root.history)|)
    ensures Installed(plans, base, root.files, kept) && (ok ==> kept == {})
    ensures old(root.clock) <= root.clock && (NoFaults(root.faulty, old(root.clock), root.clock) ==> ok)
  {
    hide Installed, HistoryInstalled, Fresh, AllSeparate, Describes;
    ok, kept := true, backups;
    NothingInstalledYet(plans, root.history);
    for k := 0 to |staged|
      invariant Installed(plans, base, root.files, kept) && kept <= backups
      invariant ok ==> forall i :: i in kept ==> k <= i
      invariant old(root.history) <= root.history && HistoryInstalled(plans, root.history, |old(root.history)|)
      invariant old(root.clock) <= root.clock && (NoFaults(root.faulty, old(root.clock), root.clock) ==> ok)
    {
      var removed;
      removed, kept := RemoveBackup(root, staged[k], plans, base, k, kept, |old(root.history)|);
      ok := ok && removed;
    }
    assert ok ==> forall i :: i !in kept;
  }

  lemma AllInstalled(plans: seq<Plan>, g: seq<Progress>, base: Files, files: Files)
    requires AllSafe(plans, g, base, files, {}) && forall i :: 0 <= i < |g| ==> g[i].installed && !g[i].staged
    ensures Installed(plans, base, files, set i | 0 <= i < |g| && g[i].backedUp)
  {
    forall i | 0 <= i < |plans| ensures Holds(plans[i], g[i], base, files) {}
  }

  lemma NothingInstalledYet(plans: seq<Plan>, history: seq<Files>)
    ensures HistoryInstalled(plans, history, |history|)
  {
  }

  lemma BackupNamed(plans: seq<Plan>, base: Files, k: nat)
    requires AllSeparate(plans, base) && k < |plans|
    ensures plans[k].backup != ""
  {
    assert Separate(plans[k], base);
  }

  lemma InstalledFacts(plans: seq<Plan>, base: Files, files: Files, kept: set<int>)
    requires Installed(plans, base, files, kept)
    ensures AfterImagesInPlace(plans, files) && OthersKept(plans, base, files)
  {
  }

  lemma InstalledHistoryGrows(plans: seq<Plan>, base: Files, history: seq<Files>, files: Files, kept: set<int>,
                              from: nat)
    requires HistoryInstalled(plans, history, from) && Installed(plans, base, files, kept)
    ensures HistoryInstalled(plans, history + [files], from)
  {
  }

  lemma AlreadyGone(plans: seq<Plan>, base: Files, files: Files, kept: set<int>, k: nat)
    requires Installed(plans, base, files, kept) && k < |plans| && files == files - {plans[k].backup}
    ensures Installed(plans, base, files, kept - {k})
  {
    assert plans[k].backup !in files;
  }

  // ----- Stage, back up, install, clean up -------------------------------------------------------

  /** Why a run gave up, and that the reason came up just before `turn`. */
  ghost predicate Explained(cause: Cause, faulty: nat -> bool, cancelled: nat -> bool, nonces: nat -> Option<string>,
                            changes: seq<FileChange>, draw: nat, base: Files, turn: nat) {
    match cause
    case ContextCancelled => turn > 0 && cancelled(turn - 1)
    case StageFailed => FaultAt(faulty, turn) || exists n: nat :: draw <= n < draw + |changes| && nonces(n).None?
    case InstallFailed => FaultAt(faulty, turn)
    case StalePreview => exists k :: FirstMismatch(changes, base, k) && Stale(changes[k], base)
    case BackupFailed =>
      FaultAt(faulty, turn) || exists k :: FirstMismatch(changes, base, k) && Gone(changes[k], base)
  }

  /** The first change whose file is not what the preview saw. */
  ghost predicate FirstMismatch(changes: seq<FileChange>, base: Files, k: int) {
    && 0 <= k < |changes| && At(base, changes[k].name) != Image(changes[k].before)
    && forall i :: 0 <= i < k ==> At(base, changes[i].name) == Image(changes[i].before)
  }

  /** Every mismatch is of one of the two kinds, and two first mismatches are the same one. */
  lemma MismatchKinds(changes: seq<FileChange>, base: Files, k: int)
    requires FirstMismatch(changes, base, k)
    ensures Gone(changes[k], base) <==> !Stale(changes[k], base)
    ensures forall j :: FirstMismatch(changes, base, j) ==> j == k
  {
  }

  /** Every file is still what the preview saw. */
  ghost predicate PreviewMatches(changes: seq<FileChange>, base: Files) {
    forall i :: 0 <= i < |changes| ==> At(base, changes[i].name) == Image(changes[i].before)
  }

  /** Stages every change in turn. */
  method StageAll(root: Root, changes: seq<FileChange>, ghost plans: seq<Plan>, ghost base: Files)
      returns (staged: seq<Staged>, failure: Option<Cause>, clean: bool, done: nat, ghost g: seq<Progress>,
               ghost loose: set<int>, ghost turn: nat)
    requires plans == Plans(changes, root.nonces, root.draws) && base == root.files
    requires Fresh(plans, base) && AllSeparate(plans, base)
    modifies root
    ensures old(root.history) <= root.history && HistoryKept(plans, base, root.history, |old(root.history)|)
    ensures Staging(staged, changes, plans, g, done) && AllSafe(plans, g, base, root.files, loose)
    ensures (forall j :: j in loose ==> done <= j < |plans|) && (clean ==> loose == {})
    ensures failure == None ==> clean && done == |plans| == |changes|
    ensures failure.Some? ==> failure.value in {ContextCancelled, StageFailed}
    ensures failure.Some? ==>
              Explained(failure.value, root.faulty, root.cancelled, root.nonces, changes, old(root.draws), base, turn)
    ensures old(root.clock) <= turn <= root.clock && (NoFaults(root.faulty, turn, root.clock) ==> clean)
  {
    hide AllSafe, HistoryKept, LocalStep, LocalHistory, Holds, Fresh, NothingLost, Separate, Tracks, Describes,
         AllSeparate;
    PlansFollowNonces(changes, root.nonces, root.draws);
    staged := seq(|changes|, _ => ZERO_STAGED);
    g, loose, clean, done, turn := seq(|plans|, _ => NOT_STARTED), {}, true, 0, root.clock;
    StartIsSafe(plans, base);
    NothingRecorded(plans, base, root.history);
    while done < |changes|
      invariant done <= |plans| && root.draws == old(root.draws) + done && Staging(staged, changes, plans, g, done)
      invariant AllSafe(plans, g, base, root.files, {})
      invariant old(root.history) <= root.history && HistoryKept(plans, base, root.history, |old(root.history)|)
      invariant old(root.clock) <= root.clock
      decreases |changes| - done
    {
      var stop := root.Cancelled();
      if stop { return staged, Some(ContextCancelled), true, done, g, {}, root.clock; }
      var ok;
      staged, ok, clean, g, loose,
        turn := StageNext(root, staged, changes, plans, g, done, base, |old(root.history)|, old(root.draws));
      if !ok { return staged, Some(StageFailed), clean, done, g, loose, turn; }
      done := done + 1;
    }
    return staged, None, true, done, g, {}, root.clock;
  }

  lemma StartIsSafe(plans: seq<Plan>, base: Files)
    requires Fresh(plans, base)
    ensures AllSafe(plans, seq(|plans|, _ => NOT_STARTED), base, base, {})
  {
  }

  lemma NothingRecorded(plans: seq<Plan>, base: Files, history: seq<Files>)
    ensures HistoryKept(plans, base, history, |history|)
  {
  }

  lemma PlanIsSeparate(plans: seq<Plan>, base: Files, k: nat)
    requires AllSeparate(plans, base) && k < |plans|
    ensures Separate(plans[k], base)
  {
  }

  /** Stages the next change and records it. */
  method StageNext(root: Root, staged: seq<Staged>, changes: seq<FileChange>, ghost plans: seq<Plan>,
                   ghost g: seq<Progress>, k: nat, ghost base: Files, ghost from: nat, ghost draw: nat)
      returns (staged': seq<Staged>, ok: bool, clean: bool, ghost g': seq<Progress>, ghost loose: set<int>,
               ghost turn: nat)
    requires plans == Plans(changes, root.nonces, draw) && root.draws == draw + k && k < |changes| && k <= |plans|
    requires Fresh(plans, base) && AllSeparate(plans, base)
    requires Staging(staged, changes, plans, g, k) && AllSafe(plans, g, base, root.files, {})
    requires HistoryKept(plans, base, root.history, from)
    modifies root
    ensures old(root.history) <= root.history && HistoryKept(plans, base, root.history, from)
    ensures AllSafe(plans, g', base, root.files, loose) && root.draws == draw + k + 1
    ensures ok ==> k < |plans| && loose == {} && Staging(staged', changes, plans, g', k + 1)
    ensures !ok ==>
              staged' == staged && g' == g && (forall j :: j in loose ==> j == k < |plans|) && (clean ==> loose == {})
    ensures !ok ==> Explained(StageFailed, root.faulty, root.cancelled, root.nonces, changes, draw, base, turn)
    ensures old(root.clock) <= turn <= root.clock && (NoFaults(root.faulty, turn, root.clock) ==> clean)
  {
    hide AllSafe, HistoryKept, LocalStep, LocalHistory, Holds, Fresh, NothingLost, Separate, Tracks, Describes,
         AllSeparate;
    PlansFollowNonces(changes, root.nonces, draw);
    ghost var files, history := root.files, root.history;
    staged', g', loose := staged, g, {};
    if k < |plans| {
      assert PlanAt(changes, root.nonces, draw, plans, k);
      PlanIsSeparate(plans, base, k);
      SafeAt(plans, g, base, files, {}, k);
    }
    var item;
    item, ok, clean, turn := StageChange(root, changes[k], base);
    if ok { staged' := staged[k := item]; }
    if k < |plans| {
      LiftHistory(plans, g, base, files, {}, k, history, root.history, from);
      if ok {
        g' := g[k := Progress(changes[k].after.exists_, false, false)];
        LiftHolds(plans, g, base, files, root.files, {}, k, g'[k]);
        assert {} - {k} == {};
      } else if clean {
        LiftHolds(plans, g, base, files, root.files, {}, k, NOT_STARTED);
        assert g[k := NOT_STARTED] == g && {} - {k} == {};
      } else {
        loose := {k};
        Lift(plans, g, base, files, root.files, {}, k);
        assert {} + {k} == loose;
      }
    }
  }

  /** All changes staged, the first `moved` of them also backed up and matching the preview. */
  ghost predicate BackingUp(staged: seq<Staged>, changes: seq<FileChange>, g: seq<Progress>, base: Files, moved: nat) {
    && |staged| == |changes| == |g| && moved <= |g|
    && (forall i :: 0 <= i < |g| ==>
          staged[i].change == changes[i] && g[i].staged == changes[i].after.exists_ && !g[i].installed)
    && (forall i :: 0 <= i < moved ==>
          At(base, changes[i].name) == Image(changes[i].before) && g[i].backedUp == changes[i].before.exists_)
    && (forall i :: moved <= i < |g| ==> !g[i].backedUp)
  }

  /** Backs every original up in turn. */
  method BackupAll(root: Root, staged: seq<Staged>, ghost changes: seq<FileChange>, ghost plans: seq<Plan>,
                   ghost g: seq<Progress>, ghost base: Files, ghost from: nat, ghost draw: nat)
      returns (staged': seq<Staged>, failure: Option<Cause>, ghost g': seq<Progress>)
    requires Fresh(plans, base) && AllSeparate(plans, base) && AllSafe(plans, g, base, root.files, {})
    requires AllTracked(staged, plans, g)
    requires BackingUp(staged, changes, g, base, 0) && Names(plans, changes)
    requires HistoryKept(plans, base, root.history, from)
    modifies root
    ensures old(root.history) <= root.history && HistoryKept(plans, base, root.history, from)
    ensures old(root.clock) <= root.clock
    ensures AllSafe(plans, g', base, root.files, {}) && AllTracked(staged', plans, g')
    ensures failure == None ==> BackingUp(staged', changes, g', base, |changes|)
    ensures failure.Some? ==>
              && failure.value in {StalePreview, BackupFailed}
              && Explained(failure.value, root.faulty, root.cancelled, root.nonces, changes, draw, base, root.clock)
  {
    hide AllSafe, HistoryKept, LocalStep, LocalHistory, Holds, Fresh, NothingLost, Separate, Tracks, Describes,
         AllSeparate;
    staged', g', failure := staged, g, None;
    for k := 0 to |staged|
      invariant failure == None
      invariant AllSafe(plans, g', base, root.files, {}) && AllTracked(staged', plans, g')
      invariant BackingUp(staged', changes, g', base, k)
      invariant old(root.history) <= root.history && HistoryKept(plans, base, root.history, from)
      invariant old(root.clock) <= root.clock
    {
      ghost var files, history := root.files, root.history;
      PlanIsSeparate(plans, base, k);
      SafeAt(plans, g', base, files, {}, k);
      ghost var moved;
      var item;
      item, failure, moved := BackupChange(root, staged'[k], plans[k], g'[k], base);
      LiftHistory(plans, g', base, files, {}, k, history, root.history, from);
      LiftHolds(plans, g', base, files, root.files, {}, k, moved);
      assert {} - {k} == {};
      staged', g' := staged'[k := item], g'[k := moved];
      assert plans[k].name == changes[k].name;
      if failure.Some? {
        assert !FaultAt(root.faulty, root.clock) ==> FirstMismatch(changes, base, k);
        return;
      }
    }
  }

  ghost predicate Names(plans: seq<Plan>, changes: seq<FileChange>) {
    |plans| == |changes| && forall i :: 0 <= i < |plans| ==>
      plans[i].name == changes[i].name && plans[i].after == Image(changes[i].after)
  }

  /** The first `moved` changes are in place, the others still staged. */
  ghost predicate Installing(staged: seq<Staged>, changes: seq<FileChange>, g: seq<Progress>, base: Files, moved: nat) {
    && |staged| == |changes| == |g| && moved <= |g| && PreviewMatches(changes, base)
    && (forall i :: 0 <= i < |g| ==> staged[i].change == changes[i] && g[i].backedUp == changes[i].before.exists_)
    && (forall i :: 0 <= i < moved ==> g[i].installed && !g[i].staged)
    && (forall i :: moved <= i < |g| ==> !g[i].installed && g[i].staged == changes[i].after.exists_)
  }

  /** Moves every staged file into place in turn. */
  method InstallAll(root: Root, staged: seq<Staged>, ghost changes: seq<FileChange>, ghost plans: seq<Plan>,
                    ghost g: seq<Progress>, ghost base: Files, ghost from: nat)
      returns (staged': seq<Staged>, failure: Option<Cause>, ghost g': seq<Progress>)
    requires Fresh(plans, base) && AllSeparate(plans, base) && AllSafe(plans, g, base, root.files, {})
    requires AllTracked(staged, plans, g)
    requires Installing(staged, changes, g, base, 0) && Names(plans, changes)
    requires HistoryKept(plans, base, root.history, from)
    modifies root
    ensures old(root.history) <= root.history && HistoryKept(plans, base, root.history, from)
    ensures old(root.clock) <= root.clock
    ensures AllSafe(plans, g', base, root.files, {}) && AllTracked(staged', plans, g')
    ensures failure == None ==> Installing(staged', changes, g', base, |changes|)
    ensures failure == Some(ContextCancelled) ==> root.clock > 0 && root.cancelled(root.clock - 1)
    ensures failure == None || failure == Some(ContextCancelled)
            || (failure == Some(InstallFailed) && FaultAt(root.faulty, root.clock))
  {
    hide AllSafe, HistoryKept, LocalStep, LocalHistory, Holds, Fresh, NothingLost, Separate, Tracks, Describes,
         AllSeparate;
    staged', g', failure := staged, g, None;
    for k := 0 to |staged|
      invariant AllSafe(plans, g', base, root.files, {}) && AllTracked(staged', plans, g')
      invariant Installing(staged', changes, g', base, k)
      invariant old(root.history) <= root.history && HistoryKept(plans, base, root.history, from)
      invariant old(root.clock) <= root.clock
    {
      var stop := root.Cancelled();
      if stop { return staged', Some(ContextCancelled), g'; }
      ghost var files, history := root.files, root.history;
      PlanIsSeparate(plans, base, k);
      SafeAt(plans, g', base, files, {}, k);
      assert plans[k].name == changes[k].name && plans[k].after == Image(changes[k].after);
      ghost var moved;
      var item, ok;
      item, ok, moved := InstallChange(root, staged'[k], plans[k], g'[k], base);
      LiftHistory(plans, g', base, files, {}, k, history, root.history, from);
      LiftHolds(plans, g', base, files, root.files, {}, k, moved);
      assert {} - {k} == {};
      staged', g' := staged'[k := item], g'[k := moved];
      if !ok { return staged', Some(InstallFailed), g'; }
    }
  }

  /** Up to `cut` no original is lost; from there on every after-image is in place. */
  ghost predicate SafeRun(plans: seq<Plan>, base: Files, history: seq<Files>, from: nat, cut: nat) {
    && from <= cut <= |history|
    && HistoryKept(plans, base, history[..cut], from) && HistoryInstalled(plans, history, cut)
  }

  /** No fault, no cancellation and a suffix at every draw. */
  ghost predicate Undisturbed(root: Root) {
    forall t: nat :: !root.faulty(t) && !root.cancelled(t) && root.nonces(t).Some?
  }

  /**
   * The whole change. `turn` is the moment a failed run starts to undo, `cut` the moment a successful one starts to
   * clean up. The caller's promises are distinct names and suffixes that are new in the directory.
   */
  method ApplyChanges(root: Root, changes: seq<FileChange>) returns (outcome: Outcome, ghost turn: nat, ghost cut: nat)
    requires Fresh(Plans(changes, root.nonces, root.draws), root.files)
    requires AllSeparate(Plans(changes, root.nonces, root.draws), root.files)
    modifies root
    ensures var plans := Plans(changes, root.nonces, old(root.draws));
            && old(root.history) <= root.history
            && SafeRun(plans, old(root.files), root.history, |old(root.history)|, cut)
            && (outcome == Applied ==> |plans| == |changes| && IsAfterImage(plans, old(root.files), root.files))
            && (outcome == CleanupIncomplete ==>
                  |plans| == |changes| && AfterImagesInPlace(plans, root.files)
                  && OthersKept(plans, old(root.files), root.files))
    ensures outcome.Failed? ==> cut == |root.history| && (outcome.undone ==> root.files == old(root.files))
    ensures outcome.Failed? ==>
              Explained(outcome.cause, root.faulty, root.cancelled, root.nonces, changes, old(root.draws),
                        old(root.files), turn)
    ensures !outcome.Failed? ==> PreviewMatches(changes, old(root.files))
    ensures old(root.clock) <= turn <= root.clock
    ensures NoFaults(root.faulty, turn, root.clock) ==> outcome == Applied || (outcome.Failed? && outcome.undone)
    ensures Undisturbed(root) ==> (outcome == Applied <==> PreviewMatches(changes, old(root.files)))
    ensures Undisturbed(root) ==>
              forall k :: FirstMismatch(changes, old(root.files), k) ==>
                outcome == Failed(if Gone(changes[k], old(root.files)) then BackupFailed else StalePreview, true)
  {
    hide AllSafe, HistoryKept, Holds, Fresh, NothingLost, Separate, Tracks, Describes, AllSeparate, IsAfterImage,
         HistoryInstalled, OthersKept, AfterImagesInPlace, Plans, PreviewMatches, FirstMismatch, Gone;
    var faulty, cancelled, nonces := root.faulty, root.cancelled, root.nonces;
    ghost var base, plans := root.files, Plans(changes, root.nonces, root.draws);
    ghost var from, draw := |root.history|, root.draws;
    ghost var g, loose;
    var staged, failure, clean, done;
    staged, failure, clean, done, g, loose, turn := StageAll(root, changes, plans, base);
    if failure.Some? {
      var removed := CleanupStaged(root, staged, changes, plans, g, done, base, from, loose);
      cut := |root.history|;
      NoCleanup(plans, base, root.history, from);
      ExplainedUndisturbed(failure.value, faulty, cancelled, nonces, changes, draw, base, turn);
      return Failed(failure.value, clean && removed), turn, cut;
    }
    StagedIsTracked(staged, changes, plans, g, base, root.nonces, draw);
    staged, failure, g := BackupAll(root, staged, changes, plans, g, base, from, draw);
    turn := root.clock;
    if failure == None {
      BackedUpIsReady(staged, changes, g, base);
      staged, failure, g := InstallAll(root, staged, changes, plans, g, base, from);
      turn := root.clock;
    }
    if failure.Some? {
      var undone := RollbackChanges(root, staged, plans, g, base, from);
      cut := |root.history|;
      NoCleanup(plans, base, root.history, from);
      ExplainedUndisturbed(failure.value, faulty, cancelled, nonces, changes, draw, base, turn);
      return Failed(failure.value, undone), turn, cut;
    }
    MatchHasNoMismatch(changes, base);
    cut := |root.history|;
    ghost var kept := root.history;
    var cleaned := CleanupBackups(root, staged, plans, g, base);
    CleanupFollows(plans, base, kept, root.history, from);
    outcome := if cleaned then Applied else CleanupIncomplete;
  }

  /** Without disturbance only a mismatch explains a failure, and the first one decides the cause. */
  lemma ExplainedUndisturbed(cause: Cause, faulty: nat -> bool, cancelled: nat -> bool,
                             nonces: nat -> Option<string>, changes: seq<FileChange>, draw: nat, base: Files, turn: nat)
    requires Explained(cause, faulty, cancelled, nonces, changes, draw, base, turn)
    ensures (forall t: nat :: !faulty(t) && !cancelled(t) && nonces(t).Some?) ==>
              && !PreviewMatches(changes, base)
              && forall k :: FirstMismatch(changes, base, k) ==>
                   cause == if Gone(changes[k], base) then BackupFailed else StalePreview
  {
    if k :| FirstMismatch(changes, base, k) { MismatchKinds(changes, base, k); }
  }

  lemma MatchHasNoMismatch(changes: seq<FileChange>, base: Files)
    requires PreviewMatches(changes, base)
    ensures forall k :: !FirstMismatch(changes, base, k)
  {
  }

  lemma NoCleanup(plans: seq<Plan>, base: Files, history: seq<Files>, from: nat)
    requires HistoryKept(plans, base, history, from) && from <= |history|
    ensures SafeRun(plans, base, history, from, |history|)
  {
    assert history[..|history|] == history;
  }

  lemma CleanupFollows(plans: seq<Plan>, base: Files, kept: seq<Files>, history: seq<Files>, from: nat)
    requires HistoryKept(plans, base, kept, from) && from <= |kept| && kept <= history
    requires HistoryInstalled(plans, history, |kept|)
    ensures SafeRun(plans, base, history, from, |kept|)
  {
    assert history[..|kept|] == kept;
  }

  lemma StagedIsTracked(staged: seq<Staged>, changes: seq<FileChange>, plans: seq<Plan>, g: seq<Progress>, base: Files,
                        nonces: nat -> Option<string>, draw: nat)
    requires plans == Plans(changes, nonces, draw) && |plans| == |changes|
    requires Staging(staged, changes, plans, g, |plans|)
    ensures AllTracked(staged, plans, g) && BackingUp(staged, changes, g, base, 0) && Names(plans, changes)
  {
    PlansFollowNonces(changes, nonces, draw);
    forall i | 0 <= i < |plans| ensures plans[i].name == changes[i].name && plans[i].after == Image(changes[i].after) {
      assert PlanAt(changes, nonces, draw, plans, i);
    }
  }

  lemma BackedUpIsReady(staged: seq<Staged>, changes: seq<FileChange>, g: seq<Progress>, base: Files)
    requires BackingUp(staged, changes, g, base, |changes|)
    ensures Installing(staged, changes, g, base, 0)
  {
  }

  // ----- What the caller provides ----------------------------------------------------------------

  const NONCE_LENGTH := 16

  ghost predicate DistinctNames(changes: seq<FileChange>) {
    && (forall i, j :: 0 <= i < j < |changes| ==> changes[i].name != changes[j].name)
    && (forall i :: 0 <= i < |changes| ==> changes[i].name != "")
  }

  /** No file and no change has a name that could be generated. */
  ghost predicate GeneratedNamesAreNew(changes: seq<FileChange>, files: Files) {
    forall i, s :: 0 <= i < |changes| && |s| == NONCE_LENGTH ==>
      IsNew(TemporaryName(changes[i].name, s), changes, files) && IsNew(BackupName(changes[i].name, s), changes, files)
  }

  ghost predicate IsNew(name: string, changes: seq<FileChange>, files: Files) {
    name !in files && forall j :: 0 <= j < |changes| ==> changes[j].name != name
  }

  lemma PlanNames(changes: seq<FileChange>, nonces: nat -> Option<string>, draw: nat, files: Files, i: nat)
    returns (s: string)
    requires GeneratedNamesAreNew(changes, files) && i < |Plans(changes, nonces, draw)|
    requires forall n: nat :: nonces(n).Some? ==> |nonces(n).value| == NONCE_LENGTH
    ensures |Plans(changes, nonces, draw)| <= |changes|
    ensures |s| == NONCE_LENGTH && Plans(changes, nonces, draw)[i] == PlanOf(changes[i], s)
    ensures IsNew(TemporaryName(changes[i].name, s), changes, files)
    ensures IsNew(BackupName(changes[i].name, s), changes, files)
  {
    PlansFollowNonces(changes, nonces, draw);
    assert PlanAt(changes, nonces, draw, Plans(changes, nonces, draw), i);
    s := nonces(draw + i).value;
  }

  /** Different file names and suffixes of one length give plans that never touch each other's names. */
  lemma DistinctNamesAreFresh(changes: seq<FileChange>, nonces: nat -> Option<string>, draw: nat, files: Files)
    requires DistinctNames(changes) && GeneratedNamesAreNew(changes, files)
    requires forall n: nat :: nonces(n).Some? ==> |nonces(n).value| == NONCE_LENGTH
    ensures Fresh(Plans(changes, nonces, draw), files) && AllSeparate(Plans(changes, nonces, draw), files)
  {
    hide Plans, TemporaryName, BackupName, GeneratedNamesAreNew;
    var plans := Plans(changes, nonces, draw);
    forall i | 0 <= i < |plans| ensures Separate(plans[i], files) {
      var s := PlanNames(changes, nonces, draw, files, i);
      GeneratedNamesDiffer(changes[i].name, s, changes[i].name, s);
      GeneratedNamesNotEmpty(changes[i].name, s);
    }
    forall i, j, name | 0 <= i < j < |plans| && Owns(plans[i], name) ensures !Owns(plans[j], name) {
      var s := PlanNames(changes, nonces, draw, files, i);
      var t := PlanNames(changes, nonces, draw, files, j);
      GeneratedNamesDiffer(changes[i].name, s, changes[j].name, t);
      GeneratedNamesDiffer(changes[j].name, t, changes[i].name, s);
    }
  }

  lemma GeneratedNamesNotEmpty(name: string, suffix: string)
    ensures TemporaryName(name, suffix) != "" && BackupName(name, suffix) != ""
  {
    assert |TemporaryName(name, suffix)| > 0 && |BackupName(name, suffix)| > 0;
  }
}
