/**
 * A directory whose every operation may fail, and what a guarded multi-file change keeps in it
 * (compiler/annotationinstall/install.go).
 */
module ModuleFiles {
  import opened Catalog

  type Files = map<string, string>

  datatype FileState = FileState(exists_: bool, content: string)

  /** One previewed file: its content before and after. A state that does not exist has no content. */
  datatype FileChange = FileChange(name: string, before: FileState, after: FileState)

  datatype Staged = Staged(change: FileChange, temporary: string, backup: string, backedUp: bool, installed: bool)

  function At(files: Files, name: string): Option<string> { if name in files then Some(files[name]) else None }

  function Image(state: FileState): Option<string> { if state.exists_ then Some(state.content) else None }

  // ----- Names -----------------------------------------------------------------------------------

  function TemporaryName(name: string, suffix: string): string { "." + name + ".spice-new-" + suffix }

  function BackupName(name: string, suffix: string): string { "." + name + ".spice-old-" + suffix }

  /** A generated name is hidden, and begins with its file's name and ends with its suffix. */
  lemma GeneratedNamesCarry(name: string, suffix: string)
    ensures forall g :: g in {TemporaryName(name, suffix), BackupName(name, suffix)} ==>
              && |g| > |name| + |suffix| + 1 && g[0] == '.' && g[1..|name|+1] == name && g[|g|-|suffix|..] == suffix
  {
    var a, b := TemporaryName(name, suffix), BackupName(name, suffix);
    assert a == ("." + name + ".spice-new-") + suffix && b == ("." + name + ".spice-old-") + suffix;
  }

  lemma TailOf(a: string, b: string, i: nat)
    requires i < |b|
    ensures (a + b)[|a| + i] == b[i]
  {
  }

  /** Equal-length suffixes: the names are different for different files, and never a temporary and a backup. */
  lemma GeneratedNamesDiffer(m: string, s: string, n: string, t: string)
    requires |s| == |t|
    ensures TemporaryName(m, s) != BackupName(n, t)
    ensures m != n ==> TemporaryName(m, s) != TemporaryName(n, t) && BackupName(m, s) != BackupName(n, t)
  {
    var a, b := TemporaryName(m, s), TemporaryName(n, t);
    var c, d := BackupName(m, s), BackupName(n, t);
    assert |a| == |m| + 12 + |s| == |c| && |b| == |n| + 12 + |t| == |d|;
    if |m| == |n| {
      assert a[|m| + 8] == 'n' && d[|n| + 8] == 'o' by {
        assert a == ("." + m) + (".spice-new-" + s) && d == ("." + n) + (".spice-old-" + t);
        TailOf("." + m, ".spice-new-" + s, 7);
        TailOf("." + n, ".spice-old-" + t, 7);
      }
      assert a[1..|m|+1] == m && b[1..|n|+1] == n && c[1..|m|+1] == m && d[1..|n|+1] == n;
    }
  }

  // ----- One change in a directory ---------------------------------------------------------------

  /** The names one change uses: its file, its staging file and its backup. */
  datatype Plan = Plan(name: string, after: Option<string>, temporary: string, backup: string)

  ghost predicate Owns(p: Plan, name: string) { name == p.name || name == p.temporary || name == p.backup }

  /** All names of all changes are different, and the generated ones are new in the directory. */
  ghost predicate Fresh(plans: seq<Plan>, base: Files) {
    && (forall i :: 0 <= i < |plans| ==>
          && plans[i].temporary !in base && plans[i].backup !in base
          && plans[i].name != plans[i].temporary && plans[i].name != plans[i].backup
          && plans[i].temporary != plans[i].backup)
    && (forall i, j, name :: 0 <= i < j < |plans| && Owns(plans[i], name) ==> !Owns(plans[j], name))
  }

  /** No name outside the plans has changed. */
  ghost predicate OthersKept(plans: seq<Plan>, base: Files, files: Files) {
    forall name :: At(files, name) == At(base, name) || exists i :: 0 <= i < |plans| && Owns(plans[i], name)
  }

  /** How far a change has come. */
  datatype Progress = Progress(staged: bool, backedUp: bool, installed: bool)

  ghost predicate Possible(p: Plan, g: Progress, base: Files) {
    && (g.staged ==> p.after.Some? && !g.installed)
    && (g.backedUp ==> p.name in base)
    && (g.installed ==> g.backedUp || p.name !in base)
  }

  /** The exact content of a change's three names at a given progress. */
  ghost predicate Holds(p: Plan, g: Progress, base: Files, files: Files) {
    && Possible(p, g, base)
    && At(files, p.temporary) == (if g.staged then p.after else None)
    && At(files, p.backup) == (if g.backedUp then At(base, p.name) else None)
    && At(files, p.name) == (if g.installed then p.after else if g.backedUp then None else At(base, p.name))
  }

  /** The file that stood at the name before is readable there or at the backup. */
  ghost predicate Readable(p: Plan, base: Files, files: Files) {
    At(files, p.name) == At(base, p.name) || (p.name in base && At(files, p.backup) == At(base, p.name))
  }

  ghost predicate NothingLost(plans: seq<Plan>, base: Files, files: Files) {
    && OthersKept(plans, base, files)
    && forall i :: 0 <= i < |plans| ==> plans[i].name in base ==> Readable(plans[i], base, files)
  }

  ghost predicate AllHold(plans: seq<Plan>, g: seq<Progress>, base: Files, files: Files) {
    && |g| == |plans| && OthersKept(plans, base, files)
    && forall i :: 0 <= i < |plans| ==> Holds(plans[i], g[i], base, files)
  }

  // ----- End states ------------------------------------------------------------------------------

  const NOT_STARTED := Progress(false, false, false)

  ghost predicate Untouched(g: seq<Progress>) { forall i :: 0 <= i < |g| ==> g[i] == NOT_STARTED }

  /** With no change in progress the directory is exactly what it was. */
  lemma UntouchedIsInitial(plans: seq<Plan>, g: seq<Progress>, base: Files, files: Files)
    requires Fresh(plans, base) && AllHold(plans, g, base, files) && Untouched(g)
    ensures files == base
  {
    forall name ensures At(files, name) == At(base, name) {
      if i :| 0 <= i < |plans| && Owns(plans[i], name) { assert Holds(plans[i], g[i], base, files); }
    }
    SameLookups(files, base);
  }

  lemma SameLookups(a: Files, b: Files)
    requires forall name :: At(a, name) == At(b, name)
    ensures a == b
  {
    forall name ensures name in a <==> name in b { assert At(a, name) == At(b, name); }
    forall name | name in a ensures a[name] == b[name] { assert At(a, name) == At(b, name); }
  }

  /** The directory with every change made and nothing else. */
  ghost predicate IsAfterImage(plans: seq<Plan>, base: Files, files: Files) {
    && (forall i :: 0 <= i < |plans| ==> At(files, plans[i].name) == plans[i].after)
    && (forall name :: At(files, name) == At(base, name) || exists i :: 0 <= i < |plans| && plans[i].name == name)
  }

  ghost predicate AfterImagesInPlace(plans: seq<Plan>, files: Files) {
    forall i :: 0 <= i < |plans| ==> At(files, plans[i].name) == plans[i].after
  }
}
