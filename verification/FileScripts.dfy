/** The shell scripts that replace database files (server.js): lists of steps under set -e of which any may
    fail and after any of which the run may stop. A static discipline on step lists is proved to keep the live
    file and its safety copy safe under every such run, and each script is shown to obey it.

    mv is an atomic rename within one filesystem; a failed cp or tool run may leave a partial file where it
    was writing, tools that change a database in place leave a complete file, and nobody else writes. */
module FileScripts {
  import opened Runs

  // ----- files and steps -----

  datatype Edit = Shutdown | Online | Mended | IndexesOff | Unlocked | ReadOnly | ReadWrite

  /** original: it comes from the file the script found at its target; edits: the in-place tools run on it
      since; checked: gstat has accepted it. */
  datatype Image = Image(original: bool, edits: seq<Edit>, whole: bool, checked: bool)

  type Files<P(==)> = map<P, Image>

  /** A step whose failure is tolerated (|| true) lets the script go on. Steps that touch none of these files
      (mkdir, echo, printf, sha256sum) are not listed: their failure is a stop between two listed steps. */
  datatype Step<P> =
    | TestFile(path: P)
    | Remove(paths: seq<P>, tolerated: bool)
    | Copy(from: P, to: P, onlyIfPresent: bool)
    | Move(from: P, to: P, onlyIfPresent: bool)
    | Chmod(path: P)
    | Write(path: P)
    | Build(path: P)
    | Tool(path: P, edit: Edit, tolerated: bool)
    | Check(path: P)

  datatype Script<P> = End | Then(step: Step<P>, rest: Script<P>)

  /** Broken(extent): the step failed; 0 means before it had any effect. */
  datatype Outcome = Done | Broken(extent: nat)

  function Part(image: Image): Image {
    image.(whole := false, checked := false)
  }

  /** The files after a step, and whether the script goes on. */
  function Ran<P>(fs: Files<P>, step: Step<P>, out: Outcome): (Files<P>, bool) {
    match step
    case TestFile(p) => (fs, out.Done? && p in fs)
    case Chmod(p) => (fs, out.Done? && p in fs)
    case Remove(ps, tolerated) =>
      var gone := if out.Done? || out.extent > |ps| then ps else ps[..out.extent];
      (fs - (set p | p in gone), out.Done? || tolerated)
    case Copy(from, to, onlyIfPresent) =>
      if from !in fs then (fs, out.Done? && onlyIfPresent)
      else if out.Done? then (fs[to := fs[from]], true)
      else (if out.extent > 0 then fs[to := Part(fs[from])] else fs, false)
    case Move(from, to, onlyIfPresent) =>
      if from !in fs then (fs, out.Done? && onlyIfPresent)
      else if out.Done? then ((fs - {from})[to := fs[from]], true)
      else (fs, false)
    case Write(p) =>
      var image := Image(false, [], out.Done?, false);
      (if out.Done? || out.extent > 0 then fs[p := image] else fs, out.Done?)
    case Build(p) =>
      if p in fs then (fs, false)
      else
        var image := Image(false, [], out.Done?, false);
        (if out.Done? || out.extent > 0 then fs[p := image] else fs, out.Done?)
    case Tool(p, edit, tolerated) =>
      if p !in fs then (fs, tolerated)
      else
        (if out.Done? || out.extent > 0 then fs[p := fs[p].(edits := fs[p].edits + [edit])] else fs,
         out.Done? || tolerated)
    case Check(p) =>
      if p in fs && out.Done? then (fs[p := fs[p].(checked := true)], true) else (fs, false)
  }

  /** A run with the given outcomes, stopped where they end; true if it came to the script's end. */
  function Run<P>(fs: Files<P>, script: Script<P>, outs: seq<Outcome>): (Files<P>, bool)
    decreases script
  {
    match script
    case End => (fs, true)
    case Then(step, rest) =>
      if outs == [] then (fs, false)
      else
        var (fs', goes) := Ran(fs, step, outs[0]);
        if goes then Run(fs', rest, outs[1..]) else (fs', false)
  }

  // ----- the discipline -----

  /** The files a replacing script names: the live file, its safety copy, the file that will replace it, and
      intermediate ones. They are distinct paths. */
  datatype Role = Target | Safety | Temp | Raw | Dump | Source | Unpacked

  /** What may have been done to the target before it has a safety copy, or that it needs none. */
  datatype Policy = Pristine | MayBeOnline | MayBeShut | NoSafety

  predicate Harmless(policy: Policy, edit: Edit) {
    match policy
    case Pristine => false
    case MayBeOnline => edit == Online
    case MayBeShut => edit == Shutdown
    case NoSafety => true
  }

  datatype Stage = Unready | Whole | Accepted

  /** What is known between two steps: the original is safe in its copy, how far the replacement has come, the
      replacement has taken the target's place. */
  datatype Known = Known(saved: bool, temp: Stage, replaced: bool)

  const START := Known(false, Unready, false)

  /** The discipline of one step: what is known after it, None if it is not allowed here. */
  function Allowed(policy: Policy, k: Known, step: Step<Role>): Option<Known> {
    match step
    case TestFile(_) => Some(k)
    case Chmod(_) => Some(k)
    case Remove(ps, _) =>
      if Target in ps || Safety in ps then None else Some(if Temp in ps then k.(temp := Unready) else k)
    case Copy(from, to, _) =>
      if from == Target && to == Safety && !k.saved && !k.replaced then Some(k.(saved := true)) else None
    case Move(from, to, onlyIfPresent) =>
      if from == Temp && to == Target && !onlyIfPresent && k.temp == Accepted && (k.saved || policy.NoSafety?)
      then Some(k.(temp := Unready, replaced := true)) else None
    case Write(p) =>
      if p == Target || p == Safety then None else Some(if p == Temp then k.(temp := Unready) else k)
    case Build(p) =>
      if p == Target || p == Safety then None else Some(if p == Temp then k.(temp := Whole) else k)
    case Tool(p, edit, _) =>
      if p == Safety then None
      else if p == Target then (if k.saved || k.replaced || Harmless(policy, edit) then Some(k) else None)
      else Some(if p == Temp && k.temp == Accepted then k.(temp := Whole) else k)
    case Check(p) => Some(if p == Temp && k.temp == Whole then k.(temp := Accepted) else k)
  }

  function Disciplined(policy: Policy, k: Known, script: Script<Role>): Option<Known>
    decreases script
  {
    match script
    case End => Some(k)
    case Then(step, rest) =>
      match Allowed(policy, k, step)
      case None => None
      case Some(k') => Disciplined(policy, k', rest)
  }

  // ----- what it keeps -----

  ghost predicate Gentle(policy: Policy, edits: seq<Edit>) {
    forall e :: e in edits ==> Harmless(policy, e)
  }

  /** A complete copy of the original, at worst with the policy's harmless edits. */
  ghost predicate Saved(policy: Policy, fs: Files<Role>) {
    Safety in fs && fs[Safety].original && fs[Safety].whole && Gentle(policy, fs[Safety].edits)
  }

  /** The target, if it was there, is there; it is complete, and either the original as the tools changed it in
      place or a replacement that gstat accepted; and unless it is the original with nothing but harmless
      edits, the safety path holds the original. */
  ghost predicate Safe(policy: Policy, before: Files<Role>, fs: Files<Role>) {
    && (Target in before ==> Target in fs)
    && (Target in fs ==>
          && fs[Target].whole
          && (fs[Target].original || fs[Target].checked)
          && (fs[Target].original ==> Target in before)
          && (Target in before && !policy.NoSafety? && !(fs[Target].original && Gentle(policy, fs[Target].edits)) ==>
                Saved(policy, fs)))
  }

  /** What a Known says about the files. */
  ghost predicate Holds(policy: Policy, before: Files<Role>, k: Known, fs: Files<Role>) {
    && (Target in before ==> Target in fs)
    && (k.replaced ==> Target in fs && !fs[Target].original && fs[Target].whole && fs[Target].checked)
    && (!k.replaced && Target in fs ==>
          Target in before && fs[Target].original && fs[Target].whole && (k.saved || Gentle(policy, fs[Target].edits)))
    && (k.saved && Target in before ==> Saved(policy, fs))
    && (k.replaced ==> k.saved || policy.NoSafety?)
    && (k.temp != Unready ==> Temp in fs && fs[Temp].whole && !fs[Temp].original)
    && (k.temp == Accepted ==> Temp in fs && fs[Temp].checked)
  }

  lemma HoldsSafe(policy: Policy, before: Files<Role>, k: Known, fs: Files<Role>)
    requires Holds(policy, before, k, fs)
    ensures Safe(policy, before, fs)
  {
  }

  /** An allowed step leaves the files safe however it turns out, and as known if the script goes on. */
  lemma StepSound(policy: Policy, before: Files<Role>, k: Known, fs: Files<Role>, step: Step<Role>, out: Outcome)
    requires Holds(policy, before, k, fs) && Allowed(policy, k, step).Some?
    ensures var (fs', goes) := Ran(fs, step, out);
      Safe(policy, before, fs') && (goes ==> Holds(policy, before, Allowed(policy, k, step).value, fs'))
  {
    var (fs', goes) := Ran(fs, step, out);
    match step
    case Copy(_, _, _) => CopySound(policy, before, k, fs, step, out);
    case Move(_, _, _) => MoveSound(policy, before, k, fs, step, out);
    case Tool(_, _, _) => ToolSound(policy, before, k, fs, step, out);
    case _ =>
      assert (Target in fs' <==> Target in fs) && (Safety in fs' <==> Safety in fs);
      if goes {
        HoldsSafe(policy, before, Allowed(policy, k, step).value, fs');
      }
  }

  lemma CopySound(policy: Policy, before: Files<Role>, k: Known, fs: Files<Role>, step: Step<Role>, out: Outcome)
    requires Holds(policy, before, k, fs) && step.Copy? && Allowed(policy, k, step).Some?
    ensures var (fs', goes) := Ran(fs, step, out);
      Safe(policy, before, fs') && (goes ==> Holds(policy, before, Allowed(policy, k, step).value, fs'))
  {
  }

  lemma MoveSound(policy: Policy, before: Files<Role>, k: Known, fs: Files<Role>, step: Step<Role>, out: Outcome)
    requires Holds(policy, before, k, fs) && step.Move? && Allowed(policy, k, step).Some?
    ensures var (fs', goes) := Ran(fs, step, out);
      Safe(policy, before, fs') && (goes ==> Holds(policy, before, Allowed(policy, k, step).value, fs'))
  {
  }

  lemma ToolSound(policy: Policy, before: Files<Role>, k: Known, fs: Files<Role>, step: Step<Role>, out: Outcome)
    requires Holds(policy, before, k, fs) && step.Tool? && Allowed(policy, k, step).Some?
    ensures var (fs', goes) := Ran(fs, step, out);
      Safe(policy, before, fs') && (goes ==> Holds(policy, before, Allowed(policy, k, step).value, fs'))
  {
    if step.path == Target && Target in fs {
      var edits := fs[Target].edits;
      assert Harmless(policy, step.edit) && Gentle(policy, edits) ==> Gentle(policy, edits + [step.edit]);
    }
  }

  /** Every run of a disciplined script, failing or stopped anywhere, ends safe; one that finishes ends as the
      discipline knows. */
  lemma {:induction false} DisciplineSound(policy: Policy, before: Files<Role>, k: Known, fs: Files<Role>,
                                          script: Script<Role>, outs: seq<Outcome>)
    requires Holds(policy, before, k, fs) && Disciplined(policy, k, script).Some?
    ensures Safe(policy, before, Run(fs, script, outs).0)
    ensures Run(fs, script, outs).1 ==>
        Holds(policy, before, Disciplined(policy, k, script).value, Run(fs, script, outs).0)
    decreases script
  {
    HoldsSafe(policy, before, k, fs);
    if script.Then? && outs != [] {
      StepSound(policy, before, k, fs, script.step, outs[0]);
      var (fs', goes) := Ran(fs, script.step, outs[0]);
      if goes {
        DisciplineSound(policy, before, Allowed(policy, k, script.step).value, fs', script.rest, outs[1..]);
      }
    }
  }

  // ----- the scripts -----

  /** Both maintenance scripts begin by copying the untouched target. */
  function SaveFirst(rest: Script<Role>): Script<Role> {
    Then(TestFile(Target), Then(Remove([Raw, Dump, Temp], false),
    Then(Copy(Target, Safety, false), Then(Tool(Target, Shutdown, true), rest))))
  }

  /** Then, after their change in place, they dump the target, compress and unpack the dump, rebuild the
      database from it beside the target and check the result. */
  function Rebuild(rest: Script<Role>): Script<Role> {
    Then(Write(Raw), Then(Write(Dump), Then(Remove([Raw], false), Then(Write(Unpacked),
    Then(Build(Temp), Then(Remove([Unpacked], false), CheckTemp(rest)))))))
  }

  function CheckTemp(rest: Script<Role>): Script<Role> {
    Then(TestFile(Temp), Then(Chmod(Temp), Then(Check(Temp), rest)))
  }

  /** The swap and what follows it, where the edit brings the new target into service. */
  function Swap(edit: Edit): Script<Role> {
    Then(Move(Temp, Target, false), Then(Chmod(Target), Then(Tool(Target, edit, true), Then(Check(Target), End))))
  }

  /** disable-indexes; its EXIT trap runs gfix -online on the target. */
  function DisableIndexes(): Script<Role> {
    SaveFirst(Then(Tool(Target, IndexesOff, false), Rebuild(Then(Tool(Target, Shutdown, true), Swap(Online)))))
  }

  function AutoMaintenance(): Script<Role> {
    SaveFirst(Then(Tool(Target, Mended, true), Rebuild(Then(Tool(Target, Shutdown, true), Swap(Online)))))
  }

  /** A compressed backup is unpacked first, and what was unpacked is removed after. */
  function BuildFrom(compressed: bool, rest: Script<Role>): Script<Role> {
    Then(TestFile(Source), Then(Remove([Temp], false),
      if compressed then Then(Write(Unpacked), Then(Build(Temp), Then(Remove([Unpacked], true), CheckTemp(rest))))
      else Then(Build(Temp), CheckTemp(rest))))
  }

  function FromUpload(compressed: bool): Script<Role> {
    BuildFrom(compressed, Then(Tool(Target, Shutdown, true), Then(Copy(Target, Safety, true), Swap(Online))))
  }

  /** The standby restore from a received backup; the target is the standby file. */
  function StandbyRestore(compressed: bool): Script<Role> {
    BuildFrom(compressed, Swap(ReadOnly))
  }

  /** The standby restore from a received physical file, which is unlocked in place. */
  function PhysicalRestore(): Script<Role> {
    Then(TestFile(Temp), Then(Tool(Temp, Unlocked, false), Then(Check(Temp), Swap(ReadOnly))))
  }

  /** Before a script: the target, if present, is the original, complete and untouched by it; no other file is. */
  predicate Fresh(before: Files<Role>) {
    && (Target in before ==> before[Target].original && before[Target].whole && before[Target].edits == [])
    && forall p :: p in before && p != Target ==> !before[p].original
  }

  /** What a finished run leaves: a complete replacement that gstat accepted, and the original in its copy. */
  ghost predicate Replaced(policy: Policy, before: Files<Role>, fs: Files<Role>) {
    && Target in fs && !fs[Target].original && fs[Target].whole && fs[Target].checked
    && (Target in before && !policy.NoSafety? ==> Saved(policy, fs))
  }

  /** The end of a run whose EXIT trap runs one tolerated tool on the target; without an outcome the script was
      killed and the trap did not run. */
  function Exit(fs: Files<Role>, trap: Option<Outcome>): Files<Role> {
    if trap.None? then fs else Ran(fs, Tool(Target, Online, true), trap.value).0
  }

  lemma PristineMeansUnedited(edits: seq<Edit>)
    ensures Gentle(Pristine, edits) <==> edits == []
  {
    if edits != [] {
      assert edits[0] in edits;
    }
  }

  /** The trap's gfix -online is the one edit a target without a safety copy may carry; the copy carries none. */
  lemma ExitSafe(before: Files<Role>, fs: Files<Role>, trap: Option<Outcome>)
    requires Safe(Pristine, before, fs)
    ensures SafeButOnline(before, Exit(fs, trap))
  {
    if Target in fs {
      PristineMeansUnedited(fs[Target].edits);
      assert Gentle(MayBeOnline, [] + [Online]);
    }
    if Safety in fs {
      PristineMeansUnedited(fs[Safety].edits);
    }
  }

  /** Safe(Pristine), except that the target may have been brought online. */
  ghost predicate SafeButOnline(before: Files<Role>, fs: Files<Role>) {
    && (Target in before ==> Target in fs)
    && (Target in fs ==>
          && fs[Target].whole
          && (fs[Target].original || fs[Target].checked)
          && (fs[Target].original ==> Target in before)
          && (Target in before && !(fs[Target].original && Gentle(MayBeOnline, fs[Target].edits)) ==>
                Saved(Pristine, fs) && fs[Safety].edits == []))
  }

  lemma StartHolds(policy: Policy, before: Files<Role>)
    requires Fresh(before)
    ensures Holds(policy, before, START, before)
  {
  }

  lemma SaveFirstKnown(policy: Policy, rest: Script<Role>)
    ensures Disciplined(policy, START, SaveFirst(rest)) == Disciplined(policy, Known(true, Unready, false), rest)
  {
    var tail := Then(Copy(Target, Safety, false), Then(Tool(Target, Shutdown, true), rest));
    assert Disciplined(policy, START, tail) == Disciplined(policy, Known(true, Unready, false), rest);
  }

  lemma CheckTempKnown(policy: Policy, k: Known, rest: Script<Role>)
    requires k.temp == Whole
    ensures Disciplined(policy, k, CheckTemp(rest)) == Disciplined(policy, k.(temp := Accepted), rest)
  {
    assert Disciplined(policy, k, Then(Check(Temp), rest)) == Disciplined(policy, k.(temp := Accepted), rest);
  }

  lemma BuildTempKnown(policy: Policy, k: Known, rest: Script<Role>)
    ensures Disciplined(policy, k, Then(Build(Temp), Then(Remove([Unpacked], false), rest)))
         == Disciplined(policy, k.(temp := Whole), rest)
  {
    var cleared := Then(Remove([Unpacked], false), rest);
    assert Disciplined(policy, k.(temp := Whole), cleared) == Disciplined(policy, k.(temp := Whole), rest);
  }

  lemma RebuildKnown(policy: Policy, k: Known, rest: Script<Role>)
    ensures Disciplined(policy, k, Rebuild(rest)) == Disciplined(policy, k.(temp := Accepted), rest)
  {
    CheckTempKnown(policy, k.(temp := Whole), rest);
    BuildTempKnown(policy, k, CheckTemp(rest));
    var t := Then(Build(Temp), Then(Remove([Unpacked], false), CheckTemp(rest)));
    var unpacked := Then(Write(Unpacked), t);
    assert Disciplined(policy, k, unpacked) == Disciplined(policy, k, t);
    assert Disciplined(policy, k, Then(Remove([Raw], false), unpacked)) == Disciplined(policy, k, unpacked);
  }

  lemma SwapKnown(policy: Policy, k: Known, edit: Edit)
    requires k.temp == Accepted && (k.saved || policy.NoSafety?)
    ensures Disciplined(policy, k, Swap(edit)) == Some(Known(k.saved, Unready, true))
  {
    var done := k.(temp := Unready, replaced := true);
    var t := Then(Tool(Target, edit, true), Then(Check(Target), End));
    assert Disciplined(policy, done, Then(Check(Target), End)) == Some(done);
    assert Disciplined(policy, done, t) == Some(done);
    assert Disciplined(policy, done, Then(Chmod(Target), t)) == Some(done);
  }

  lemma BuildFromKnown(policy: Policy, compressed: bool, rest: Script<Role>)
    ensures Disciplined(policy, START, BuildFrom(compressed, rest))
        == Disciplined(policy, START.(temp := Accepted), rest)
  {
    CheckTempKnown(policy, START.(temp := Whole), rest);
    var build := Then(Build(Temp), Then(Remove([Unpacked], true), CheckTemp(rest)));
    assert Disciplined(policy, START, build) == Disciplined(policy, START.(temp := Whole), CheckTemp(rest));
    assert Disciplined(policy, START, Then(Write(Unpacked), build)) == Disciplined(policy, START, build);
    assert Disciplined(policy, START, Then(Build(Temp), CheckTemp(rest)))
        == Disciplined(policy, START.(temp := Whole), CheckTemp(rest));
  }

  /** disable-indexes, failing or killed anywhere, trap included: the live file is never absent or partial, is
      the original or a replacement gstat accepted, and whenever more than the trap's gfix -online has been
      done to it the safety path holds the untouched original. */
  lemma DisableIndexesSafe(before: Files<Role>, outs: seq<Outcome>, trap: Option<Outcome>)
    requires Fresh(before)
    ensures SafeButOnline(before, Exit(Run(before, DisableIndexes(), outs).0, trap))
    ensures Run(before, DisableIndexes(), outs).1 ==> Replaced(Pristine, before, Run(before, DisableIndexes(), outs).0)
  {
    MaintenanceKnown(Pristine, Tool(Target, IndexesOff, false));
    StartHolds(Pristine, before);
    DisciplineSound(Pristine, before, START, before, DisableIndexes(), outs);
    ExitSafe(before, Run(before, DisableIndexes(), outs).0, trap);
  }

  lemma MaintenanceKnown(policy: Policy, change: Step<Role>)
    requires change.Tool? && change.path == Target
    ensures Disciplined(policy, START,
        SaveFirst(Then(change, Rebuild(Then(Tool(Target, Shutdown, true), Swap(Online))))))
         == Some(Known(true, Unready, true))
  {
    var k := Known(true, Accepted, false);
    var swap := Then(Tool(Target, Shutdown, true), Swap(Online));
    SwapKnown(policy, k, Online);
    assert Disciplined(policy, k, swap) == Disciplined(policy, k, Swap(Online));
    RebuildKnown(policy, Known(true, Unready, false), swap);
    SaveFirstKnown(policy, Then(change, Rebuild(swap)));
  }

  /** auto-maintenance: the same, and the copy is of the untouched original. */
  lemma AutoMaintenanceSafe(before: Files<Role>, outs: seq<Outcome>)
    requires Fresh(before)
    ensures Safe(Pristine, before, Run(before, AutoMaintenance(), outs).0)
    ensures Run(before, AutoMaintenance(), outs).1 ==>
        Replaced(Pristine, before, Run(before, AutoMaintenance(), outs).0)
  {
    MaintenanceKnown(Pristine, Tool(Target, Mended, true));
    StartHolds(Pristine, before);
    DisciplineSound(Pristine, before, START, before, AutoMaintenance(), outs);
  }

  lemma UploadKnown(compressed: bool)
    ensures Disciplined(MayBeShut, START, FromUpload(compressed)) == Some(Known(true, Unready, true))
  {
    var k := START.(temp := Accepted);
    SwapKnown(MayBeShut, k.(saved := true), Online);
    var copy := Then(Copy(Target, Safety, true), Swap(Online));
    assert Disciplined(MayBeShut, k, copy) == Some(Known(true, Unready, true));
    var rest := Then(Tool(Target, Shutdown, true), copy);
    assert Disciplined(MayBeShut, k, rest) == Some(Known(true, Unready, true));
    BuildFromKnown(MayBeShut, compressed, rest);
  }

  /** from-upload: the same up to gfix -shut, which it runs before it copies; the target may also be new. */
  lemma FromUploadSafe(compressed: bool, before: Files<Role>, outs: seq<Outcome>)
    requires Fresh(before)
    ensures Safe(MayBeShut, before, Run(before, FromUpload(compressed), outs).0)
    ensures Run(before, FromUpload(compressed), outs).1 ==>
        Replaced(MayBeShut, before, Run(before, FromUpload(compressed), outs).0)
  {
    UploadKnown(compressed);
    StartHolds(MayBeShut, before);
    DisciplineSound(MayBeShut, before, START, before, FromUpload(compressed), outs);
  }

  /** The standby restore keeps no copy; its target is still never absent or partial. */
  lemma StandbyRestoreSafe(compressed: bool, before: Files<Role>, outs: seq<Outcome>)
    requires Fresh(before)
    ensures Safe(NoSafety, before, Run(before, StandbyRestore(compressed), outs).0)
    ensures Run(before, StandbyRestore(compressed), outs).1 ==>
              Replaced(NoSafety, before, Run(before, StandbyRestore(compressed), outs).0)
  {
    SwapKnown(NoSafety, START.(temp := Accepted), ReadOnly);
    BuildFromKnown(NoSafety, compressed, Swap(ReadOnly));
    StartHolds(NoSafety, before);
    DisciplineSound(NoSafety, before, START, before, StandbyRestore(compressed), outs);
  }

  /** The physical restore likewise, for a received file that arrived complete. */
  lemma WholeRestoreSafe(before: Files<Role>, outs: seq<Outcome>)
    requires Fresh(before) && Temp in before && before[Temp].whole
    ensures Safe(NoSafety, before, Run(before, PhysicalRestore(), outs).0)
    ensures Run(before, PhysicalRestore(), outs).1 ==>
        Replaced(NoSafety, before, Run(before, PhysicalRestore(), outs).0)
  {
    var k := Known(false, Whole, false);
    SwapKnown(NoSafety, k.(temp := Accepted), ReadOnly);
    assert Disciplined(NoSafety, k, Then(Check(Temp), Swap(ReadOnly))) == Some(Known(false, Unready, true));
    assert Disciplined(NoSafety, k, PhysicalRestore()) == Some(Known(false, Unready, true));
    assert Holds(NoSafety, before, k, before);
    DisciplineSound(NoSafety, before, k, before, PhysicalRestore(), outs);
  }

  /** Every run of the physical restore is safe if and only if the received file, if it is there, is complete:
      the script trusts gstat -h, which reads the header alone. */
  lemma PhysicalRestoreSafe(before: Files<Role>)
    requires Fresh(before)
    ensures (forall outs :: Safe(NoSafety, before, Run(before, PhysicalRestore(), outs).0))
      <==> (Temp in before ==> before[Temp].whole)
  {
    if Temp !in before {
      forall outs ensures Safe(NoSafety, before, Run(before, PhysicalRestore(), outs).0) {
        assert Run(before, PhysicalRestore(), outs).0 == before;
      }
    } else if before[Temp].whole {
      forall outs ensures Safe(NoSafety, before, Run(before, PhysicalRestore(), outs).0) {
        WholeRestoreSafe(before, outs);
      }
    } else {
      PartialTakesOver(before);
      assert !Safe(NoSafety, before, Run(before, PhysicalRestore(), Dones(4)).0);
    }
  }

  /** Stopped right after the mv, a partial received file is the standby file. */
  lemma PartialTakesOver(before: Files<Role>)
    requires Fresh(before) && Temp in before
    ensures var fs := Run(before, PhysicalRestore(), Dones(4)).0; Target in fs && fs[Target].whole == before[Temp].whole
  {
    var swap := Swap(ReadOnly);
    var unlocked := before[Temp := before[Temp].(edits := before[Temp].edits + [Unlocked])];
    var accepted := unlocked[Temp := unlocked[Temp].(checked := true)];
    RunThen(before, before, TestFile(Temp), Then(Tool(Temp, Unlocked, false), Then(Check(Temp), swap)), 3);
    RunThen(before, unlocked, Tool(Temp, Unlocked, false), Then(Check(Temp), swap), 2);
    RunThen(unlocked, accepted, Check(Temp), swap, 1);
    RunThen(accepted, (accepted - {Temp})[Target := accepted[Temp]], Move(Temp, Target, false), swap.rest, 0);
  }

  /** A run of a longer script is a run of its first step and of the rest. */
  lemma RunThen(fs: Files<Role>, fs': Files<Role>, step: Step<Role>, rest: Script<Role>, n: nat)
    requires Ran(fs, step, Done) == (fs', true)
    ensures Run(fs, Then(step, rest), Dones(n + 1)) == Run(fs', rest, Dones(n))
  {
    assert Dones(n + 1)[1..] == Dones(n);
  }

  function Dones(n: nat): seq<Outcome> {
    seq(n, i => Done)
  }

  // ----- from-upload and its safety copy -----

  /** How many steps from-upload takes before it shuts the target down. */
  function ShutStep(compressed: bool): nat {
    if compressed then 8 else 6
  }

  /** The script came to gfix -shut: the source was there and every step before was done, but for the tolerated
      removal of the unpacked backup. */
  predicate CameToShut(before: Files<Role>, compressed: bool, outs: seq<Outcome>) {
    && Source in before && |outs| >= ShutStep(compressed)
    && forall i :: 0 <= i < ShutStep(compressed) ==> outs[i].Done? || (compressed && i == 4)
  }

  /** And gfix -shut changed the target, whether or not it then reported failure. */
  predicate ShutTookEffect(before: Files<Role>, compressed: bool, outs: seq<Outcome>) {
    && CameToShut(before, compressed, outs) && |outs| > ShutStep(compressed)
    && outs[ShutStep(compressed)] != Broken(0)
  }

  /** The target and the safety path are as before, and no other file is the original. */
  ghost predicate Untouched(before: Files<Role>, fs: Files<Role>) {
    && (forall p :: p == Target || p == Safety ==> (p in fs <==> p in before) && (p in fs ==> fs[p] == before[p]))
    && forall p :: p in fs && p != Target ==> !fs[p].original
  }

  /** A step that copies and moves nothing and leaves the target and the safety path alone. */
  predicate IsQuiet(step: Step<Role>) {
    match step
    case TestFile(_) => true
    case Chmod(_) => true
    case Remove(ps, _) => Target !in ps && Safety !in ps
    case Write(p) => p != Target && p != Safety
    case Build(p) => p != Target && p != Safety
    case Check(p) => p != Target && p != Safety
    case _ => false
  }

  function Chain(steps: seq<Step<Role>>, rest: Script<Role>): Script<Role> {
    if steps == [] then rest else Then(steps[0], Chain(steps[1..], rest))
  }

  /** The files after the steps, and whether the run came through them. */
  function RunSteps(fs: Files<Role>, steps: seq<Step<Role>>, outs: seq<Outcome>): (Files<Role>, bool)
    decreases |steps|
  {
    if steps == [] then (fs, true)
    else if outs == [] then (fs, false)
    else
      var (fs', goes) := Ran(fs, steps[0], outs[0]);
      if goes then RunSteps(fs', steps[1..], outs[1..]) else (fs', false)
  }

  lemma QuietStep(before: Files<Role>, fs: Files<Role>, step: Step<Role>, out: Outcome)
    requires Untouched(before, fs) && IsQuiet(step)
    ensures Untouched(before, Ran(fs, step, out).0)
  {
  }

  /** A run of quiet steps and a rest leaves the files untouched, and comes to the rest or stops. */
  lemma {:induction false} QuietRun(before: Files<Role>, fs: Files<Role>, steps: seq<Step<Role>>,
                                   rest: Script<Role>, outs: seq<Outcome>)
    requires Untouched(before, fs) && forall step :: step in steps ==> IsQuiet(step)
    ensures var (fs1, came) := RunSteps(fs, steps, outs);
      && Untouched(before, fs1) && (came ==> |outs| >= |steps|)
      && Run(fs, Chain(steps, rest), outs) == if came then Run(fs1, rest, outs[|steps|..]) else (fs1, false)
    decreases |steps|
  {
    if steps == [] {
      assert outs[0..] == outs;
    } else if outs != [] {
      QuietStep(before, fs, steps[0], outs[0]);
      var (fs', goes) := Ran(fs, steps[0], outs[0]);
      if goes {
        assert forall step :: step in steps[1..] ==> step in steps;
        QuietRun(before, fs', steps[1..], rest, outs[1..]);
        assert |outs| >= |steps| ==> outs[1..][|steps| - 1..] == outs[|steps|..];
      }
    }
  }

  lemma {:induction false} RunStepsJoin(fs: Files<Role>, a: seq<Step<Role>>, b: seq<Step<Role>>, outs: seq<Outcome>)
    ensures RunSteps(fs, a, outs).1 ==> |outs| >= |a|
    ensures RunSteps(fs, a + b, outs)
         == if RunSteps(fs, a, outs).1 then RunSteps(RunSteps(fs, a, outs).0, b, outs[|a|..]) else RunSteps(fs, a, outs)
    decreases |a|
  {
    if a == [] {
      assert a + b == b && outs[0..] == outs;
    } else if outs != [] {
      assert (a + b)[0] == a[0] && (a + b)[1..] == a[1..] + b;
      RunStepsJoin(Ran(fs, a[0], outs[0]).0, a[1..], b, outs[1..]);
      assert |outs| >= |a| ==> outs[1..][|a| - 1..] == outs[|a|..];
    }
  }

  const OPEN_SOURCE: seq<Step<Role>> := [TestFile(Source), Remove([Temp], false)]
  const TEMP_CHECKS: seq<Step<Role>> := [TestFile(Temp), Chmod(Temp), Check(Temp)]

  function Building(compressed: bool): seq<Step<Role>> {
    if compressed then [Write(Unpacked), Build(Temp), Remove([Unpacked], true)] else [Build(Temp)]
  }

  function BeforeShut(compressed: bool): seq<Step<Role>> {
    OPEN_SOURCE + (Building(compressed) + TEMP_CHECKS)
  }

  lemma {:induction false} ChainJoin(a: seq<Step<Role>>, b: seq<Step<Role>>, rest: Script<Role>)
    ensures Chain(a + b, rest) == Chain(a, Chain(b, rest))
    decreases |a|
  {
    if a == [] {
      assert a + b == b;
    } else {
      assert (a + b)[0] == a[0] && (a + b)[1..] == a[1..] + b;
      ChainJoin(a[1..], b, rest);
    }
  }

  lemma ChainTwo(a: Step<Role>, b: Step<Role>, rest: Script<Role>)
    ensures Chain([a, b], rest) == Then(a, Then(b, rest))
  {
    assert [a, b][1..] == [b] && [b][1..] == [];
    assert Chain([b], rest) == Then(b, rest);
  }

  lemma ChainThree(a: Step<Role>, b: Step<Role>, c: Step<Role>, rest: Script<Role>)
    ensures Chain([a, b, c], rest) == Then(a, Then(b, Then(c, rest)))
  {
    assert [a, b, c][1..] == [b, c];
    ChainTwo(b, c, rest);
  }

  lemma BuildFromChain(compressed: bool, rest: Script<Role>)
    ensures BuildFrom(compressed, rest) == Chain(BeforeShut(compressed), rest)
  {
    var tail := Building(compressed) + TEMP_CHECKS;
    ChainJoin(OPEN_SOURCE, tail, rest);
    ChainJoin(Building(compressed), TEMP_CHECKS, rest);
    ChainThree(TestFile(Temp), Chmod(Temp), Check(Temp), rest);
    ChainTwo(TestFile(Source), Remove([Temp], false), Chain(tail, rest));
    if compressed {
      ChainThree(Write(Unpacked), Build(Temp), Remove([Unpacked], true), CheckTemp(rest));
    } else {
      assert [Build(Temp)][1..] == [];
      assert Chain([Build(Temp)], CheckTemp(rest)) == Then(Build(Temp), CheckTemp(rest));
    }
  }

  lemma Opened(fs: Files<Role>, outs: seq<Outcome>)
    ensures var (fs1, came) := RunSteps(fs, OPEN_SOURCE, outs);
      && (came <==> Source in fs && |outs| >= 2 && outs[0].Done? && outs[1].Done?)
      && (came ==> Temp !in fs1)
  {
    if outs != [] && Source in fs && outs[0].Done? {
      assert RunSteps(fs, OPEN_SOURCE, outs) == RunSteps(fs, [Remove([Temp], false)], outs[1..]);
    }
  }

  lemma PlainBuilt(fs: Files<Role>, outs: seq<Outcome>)
    requires Temp !in fs
    ensures var (fs1, came) := RunSteps(fs, Building(false), outs);
      && (came <==> |outs| >= 1 && outs[0].Done?)
      && (came ==> Temp in fs1 && fs1[Temp] == Image(false, [], true, false))
  {
  }

  lemma UnpackedBuilt(fs: Files<Role>, outs: seq<Outcome>)
    requires Temp !in fs
    ensures var (fs1, came) := RunSteps(fs, Building(true), outs);
      && (came <==> |outs| >= 3 && outs[0].Done? && outs[1].Done?)
      && (came ==> Temp in fs1 && fs1[Temp] == Image(false, [], true, false))
  {
    if outs != [] && outs[0].Done? {
      var fs1 := fs[Unpacked := Image(false, [], true, false)];
      assert RunSteps(fs, Building(true), outs) == RunSteps(fs1, [Build(Temp), Remove([Unpacked], true)], outs[1..]);
      if outs[1..] != [] && outs[1..][0].Done? {
        var fs2 := fs1[Temp := Image(false, [], true, false)];
        assert RunSteps(fs1, [Build(Temp), Remove([Unpacked], true)], outs[1..])
            == RunSteps(fs2, [Remove([Unpacked], true)], outs[1..][1..]);
      }
    }
  }

  lemma Checked(fs: Files<Role>, outs: seq<Outcome>)
    requires Temp in fs && fs[Temp] == Image(false, [], true, false)
    ensures var (fs1, came) := RunSteps(fs, TEMP_CHECKS, outs);
      && (came <==> |outs| >= 3 && outs[0].Done? && outs[1].Done? && outs[2].Done?)
      && (came ==> Temp in fs1 && fs1[Temp] == Image(false, [], true, true))
  {
    if outs != [] && outs[0].Done? {
      assert RunSteps(fs, TEMP_CHECKS, outs) == RunSteps(fs, [Chmod(Temp), Check(Temp)], outs[1..]);
      if outs[1..] != [] && outs[1..][0].Done? {
        assert RunSteps(fs, [Chmod(Temp), Check(Temp)], outs[1..]) == RunSteps(fs, [Check(Temp)], outs[1..][1..]);
      }
    }
  }

  lemma CameExactly(before: Files<Role>, compressed: bool, outs: seq<Outcome>)
    ensures var (fs1, came) := RunSteps(before, BeforeShut(compressed), outs);
      && (came <==> CameToShut(before, compressed, outs))
      && (came ==> Temp in fs1 && fs1[Temp] == Image(false, [], true, true))
  {
    var tail, n := Building(compressed) + TEMP_CHECKS, |Building(compressed)|;
    RunStepsJoin(before, OPEN_SOURCE, tail, outs);
    Opened(before, outs);
    var (fs1, found) := RunSteps(before, OPEN_SOURCE, outs);
    if found {
      var outs1 := outs[2..];
      RunStepsJoin(fs1, Building(compressed), TEMP_CHECKS, outs1);
      if compressed {
        UnpackedBuilt(fs1, outs1);
      } else {
        PlainBuilt(fs1, outs1);
      }
      var (fs2, built) := RunSteps(fs1, Building(compressed), outs1);
      if built {
        Checked(fs2, outs1[n..]);
        assert forall i :: 0 <= i < |outs1[n..]| ==> outs1[n..][i] == outs[2 + n + i];
      }
    }
  }

  /** Nowhere is there a file that is the original without any edit. */
  ghost predicate NoPristine(fs: Files<Role>) {
    forall p :: p in fs ==> !(fs[p].original && fs[p].edits == [])
  }

  lemma NoPristineStep(fs: Files<Role>, step: Step<Role>, out: Outcome)
    requires NoPristine(fs)
    ensures NoPristine(Ran(fs, step, out).0)
  {
  }

  /** Once there is none, no script makes one. */
  lemma {:induction false} NoPristineRun(fs: Files<Role>, script: Script<Role>, outs: seq<Outcome>)
    requires NoPristine(fs)
    ensures NoPristine(Run(fs, script, outs).0)
    decreases script
  {
    if script.Then? && outs != [] {
      NoPristineStep(fs, script.step, outs[0]);
      var (fs', goes) := Ran(fs, script.step, outs[0]);
      if goes {
        NoPristineRun(fs', script.rest, outs[1..]);
      }
    }
  }

  lemma NoPristineUnsafe(before: Files<Role>, fs: Files<Role>)
    requires Target in before && NoPristine(fs)
    ensures !Safe(Pristine, before, fs)
  {
    if Target in fs {
      PristineMeansUnedited(fs[Target].edits);
    }
    if Safety in fs {
      PristineMeansUnedited(fs[Safety].edits);
    }
  }

  lemma UntouchedSafe(before: Files<Role>, fs: Files<Role>)
    requires Fresh(before) && Untouched(before, fs)
    ensures Safe(Pristine, before, fs)
  {
  }

  function CopyAndSwap(): Script<Role> {
    Then(Copy(Target, Safety, true), Swap(Online))
  }

  /** From the shut on: if it had no effect the strict safety holds, otherwise no pristine file is left. */
  lemma FromShutOn(before: Files<Role>, fs: Files<Role>, outs: seq<Outcome>)
    requires Fresh(before) && Target in before && Untouched(before, fs)
    requires Temp in fs && fs[Temp] == Image(false, [], true, true)
    ensures var done := Run(fs, Then(Tool(Target, Shutdown, true), CopyAndSwap()), outs).0;
      if outs != [] && outs[0] != Broken(0) then NoPristine(done) else Safe(Pristine, before, done)
  {
    if outs == [] {
      UntouchedSafe(before, fs);
    } else {
      var fs' := Ran(fs, Tool(Target, Shutdown, true), outs[0]).0;
      assert Run(fs, Then(Tool(Target, Shutdown, true), CopyAndSwap()), outs) == Run(fs', CopyAndSwap(), outs[1..]);
      if outs[0] == Broken(0) {
        var k := START.(temp := Accepted);
        SwapKnown(Pristine, k.(saved := true), Online);
        assert Disciplined(Pristine, k, CopyAndSwap()) == Some(Known(true, Unready, true));
        assert Holds(Pristine, before, k, fs);
        DisciplineSound(Pristine, before, k, fs, CopyAndSwap(), outs[1..]);
      } else {
        NoPristineRun(fs', CopyAndSwap(), outs[1..]);
      }
    }
  }

  /** The strict safety, under which the copy is of the untouched original and is there whenever the target is
      not that, holds of a from-upload run if and only if gfix -shut did not change an existing target. */
  lemma FromUploadExactly(compressed: bool, before: Files<Role>, outs: seq<Outcome>)
    requires Fresh(before)
    ensures Safe(Pristine, before, Run(before, FromUpload(compressed), outs).0)
      <==> !(Target in before && ShutTookEffect(before, compressed, outs))
  {
    if Target !in before {
      FromUploadSafe(compressed, before, outs);
    } else {
      var k := ShutStep(compressed);
      var (fs1, came) := RunSteps(before, BeforeShut(compressed), outs);
      UploadRun(compressed, before, outs);
      if came {
        FromShutOn(before, fs1, outs[k..]);
        if ShutTookEffect(before, compressed, outs) {
          NoPristineUnsafe(before, Run(before, FromUpload(compressed), outs).0);
        }
      } else {
        UntouchedSafe(before, fs1);
      }
    }
  }

  /** A run of it that fails: stopped right after gfix -shut has changed the target and has no copy yet. */
  lemma ShutBeforeCopy(before: Files<Role>)
    requires Fresh(before) && before.Keys == {Target, Source}
    ensures !Safe(Pristine, before, Run(before, FromUpload(false), Dones(7)).0)
  {
    FromUploadExactly(false, before, Dones(7));
  }

  /** The run up to the shut. */
  lemma UploadRun(compressed: bool, before: Files<Role>, outs: seq<Outcome>)
    requires Fresh(before)
    ensures var (fs1, came) := RunSteps(before, BeforeShut(compressed), outs);
      && Untouched(before, fs1) && (came <==> CameToShut(before, compressed, outs))
      && (came ==> Temp in fs1 && fs1[Temp] == Image(false, [], true, true))
      && Run(before, FromUpload(compressed), outs)
         == if came then Run(fs1, Then(Tool(Target, Shutdown, true), CopyAndSwap()), outs[ShutStep(compressed)..])
            else (fs1, false)
  {
    var rest := Then(Tool(Target, Shutdown, true), CopyAndSwap());
    BuildFromChain(compressed, rest);
    QuietRun(before, before, BeforeShut(compressed), rest, outs);
    CameExactly(before, compressed, outs);
  }

  /** The target is not the untouched original and the safety path holds no complete copy of it. */
  predicate CopyMissing(fs: Files<Role>) {
    && !(Target in fs && fs[Target].original && fs[Target].edits == [])
    && !(Safety in fs && fs[Safety].original && fs[Safety].whole)
  }

  /** No step of the swap touches the safety path. */
  lemma SwapSparesSafety(fs: Files<Role>, outs: seq<Outcome>)
    requires Safety in fs
    ensures var done := Run(fs, Swap(Online), outs).0; Safety in done && done[Safety] == fs[Safety]
  {
    SparedRun(fs, Swap(Online), outs);
  }

  predicate Spares(step: Step<Role>) {
    match step
    case Move(from, to, _) => from != Safety && to != Safety
    case Chmod(_) => true
    case Tool(p, _, _) => p != Safety
    case Check(p) => p != Safety
    case _ => false
  }

  predicate AllSpare(script: Script<Role>) {
    script.Then? ==> Spares(script.step) && AllSpare(script.rest)
  }

  lemma {:induction false} SparedRun(fs: Files<Role>, script: Script<Role>, outs: seq<Outcome>)
    requires Safety in fs && AllSpare(script)
    ensures var done := Run(fs, script, outs).0; Safety in done && done[Safety] == fs[Safety]
    decreases script
  {
    if script.Then? && outs != [] {
      var (fs', goes) := Ran(fs, script.step, outs[0]);
      assert Safety in fs' && fs'[Safety] == fs[Safety];
      if goes {
        SparedRun(fs', script.rest, outs[1..]);
      }
    }
  }

  /** From the shut on, where it took effect: the copy is missing until the cp is done. */
  lemma MissingUntilCopied(before: Files<Role>, fs: Files<Role>, outs: seq<Outcome>)
    requires Fresh(before) && Target in before && Untouched(before, fs) && outs != [] && outs[0] != Broken(0)
    requires NoPristine(Run(fs, Then(Tool(Target, Shutdown, true), CopyAndSwap()), outs).0)
    ensures CopyMissing(Run(fs, Then(Tool(Target, Shutdown, true), CopyAndSwap()), outs).0)
      <==> !(|outs| > 1 && outs[1].Done?)
  {
    var fs' := Ran(fs, Tool(Target, Shutdown, true), outs[0]).0;
    assert Run(fs, Then(Tool(Target, Shutdown, true), CopyAndSwap()), outs) == Run(fs', CopyAndSwap(), outs[1..]);
    if |outs| > 1 {
      var (fs'', goes) := Ran(fs', Copy(Target, Safety, true), outs[1..][0]);
      if goes {
        assert Run(fs', CopyAndSwap(), outs[1..]) == Run(fs'', Swap(Online), outs[1..][1..]);
        SwapSparesSafety(fs'', outs[1..][1..]);
      }
    }
  }

  /** A copy is missing altogether exactly while the run is stopped between a gfix -shut that took effect and
      the end of the cp. */
  lemma CopyMissingExactly(compressed: bool, before: Files<Role>, outs: seq<Outcome>)
    requires Fresh(before) && Target in before
    ensures var k := ShutStep(compressed);
      CopyMissing(Run(before, FromUpload(compressed), outs).0)
      <==> ShutTookEffect(before, compressed, outs) && !(|outs| > k + 1 && outs[k + 1].Done?)
  {
    var k, done := ShutStep(compressed), Run(before, FromUpload(compressed), outs).0;
    if ShutTookEffect(before, compressed, outs) {
      UploadRun(compressed, before, outs);
      var fs1 := RunSteps(before, BeforeShut(compressed), outs).0;
      FromShutOn(before, fs1, outs[k..]);
      MissingUntilCopied(before, fs1, outs[k..]);
    } else {
      FromUploadExactly(compressed, before, outs);
      PristineMeansUnedited(done[Target].edits);
    }
  }

  // ----- that the scripts finish, and what they leave -----

  /** What is sure of three paths before a step: which are there, and whether Temp is not. */
  datatype Sure = Sure(target: bool, source: bool, temp: bool, noTemp: bool)

  predicate Has(k: Sure, p: Role) {
    match p
    case Target => k.target
    case Source => k.source
    case Temp => k.temp
    case _ => false
  }

  function Put(k: Sure, p: Role): Sure {
    match p
    case Target => k.(target := true)
    case Source => k.(source := true)
    case Temp => k.(temp := true, noTemp := false)
    case _ => k
  }

  function Taken(k: Sure, p: Role): Sure {
    match p
    case Target => k.(target := false)
    case Source => k.(source := false)
    case Temp => k.(temp := false, noTemp := true)
    case _ => k
  }

  /** What is sure after a step that lets the script go on, and whether a step that is done always does. */
  function SureAfter(k: Sure, step: Step<Role>): (Sure, bool) {
    match step
    case TestFile(p) => (k, Has(k, p))
    case Chmod(p) => (k, Has(k, p))
    case Check(p) => (k, Has(k, p))
    case Remove(ps, tolerated) =>
      (Sure(k.target && Target !in ps, k.source && Source !in ps, k.temp && Temp !in ps,
            k.noTemp || (Temp in ps && !tolerated)), true)
    case Copy(from, to, onlyIfPresent) =>
      (if Has(k, from) then Put(k, to) else if to == Temp then k.(noTemp := false) else k,
       Has(k, from) || onlyIfPresent)
    case Move(from, to, _) => (Put(Taken(k, from), to), Has(k, from))
    case Write(p) => (Put(k, p), true)
    case Build(p) => (Put(k, p), p == Temp && k.noTemp)
    case Tool(p, _, tolerated) => (k, Has(k, p) || tolerated)
  }

  predicate Fits(k: Sure, fs: Files<Role>) {
    && (k.target ==> Target in fs) && (k.source ==> Source in fs) && (k.temp ==> Temp in fs)
    && (k.noTemp ==> Temp !in fs)
  }

  predicate Tolerated(step: Step<Role>) {
    match step
    case Remove(_, tolerated) => tolerated
    case Tool(_, _, tolerated) => tolerated
    case _ => false
  }

  lemma StepFits(k: Sure, fs: Files<Role>, step: Step<Role>, out: Outcome)
    requires Fits(k, fs) && SureAfter(k, step).1
    ensures var (fs', goes) := Ran(fs, step, out);
      (goes <==> out.Done? || Tolerated(step)) && (goes ==> Fits(SureAfter(k, step).0, fs'))
  {
  }

  /** The steps numbered by tolerated apart, each of the n steps was done. */
  ghost predicate DoneBut(outs: seq<Outcome>, n: nat, tolerated: set<nat>) {
    |outs| >= n && forall i :: 0 <= i < n && i !in tolerated ==> outs[i].Done?
  }

  /** The steps i to n of a script: each finds the files it needs, and tolerated are the numbers of those that
      may fail. */
  predicate Planned(k: Sure, script: Script<Role>, i: nat, n: nat, tolerated: set<nat>)
    decreases script
  {
    match script
    case End => i == n
    case Then(step, rest) =>
      && (Tolerated(step) <==> i in tolerated)
      && SureAfter(k, step).1 && Planned(SureAfter(k, step).0, rest, i + 1, n, tolerated)
  }

  lemma {:induction false} PlannedEnds(k: Sure, fs: Files<Role>, script: Script<Role>, i: nat, n: nat,
                                      tolerated: set<nat>, outs: seq<Outcome>)
    requires Fits(k, fs) && Planned(k, script, i, n, tolerated) && i <= |outs|
    ensures i <= n
    ensures Run(fs, script, outs[i..]).1
      <==> |outs| >= n && forall j :: i <= j < n && j !in tolerated ==> outs[j].Done?
    decreases script
  {
    if script.Then? {
      if i == |outs| {
        PlannedLength(k, script, i, n, tolerated);
      } else {
        var (fs', goes) := Ran(fs, script.step, outs[i]);
        StepFits(k, fs, script.step, outs[i]);
        assert outs[i..][1..] == outs[i + 1..];
        if goes {
          PlannedEnds(SureAfter(k, script.step).0, fs', script.rest, i + 1, n, tolerated, outs);
        } else {
          PlannedLength(k, script, i, n, tolerated);
        }
      }
    }
  }

  lemma {:induction false} PlannedLength(k: Sure, script: Script<Role>, i: nat, n: nat, tolerated: set<nat>)
    requires Planned(k, script, i, n, tolerated)
    ensures if script.End? then i == n else i < n
    decreases script
  {
    if script.Then? {
      PlannedLength(SureAfter(k, script.step).0, script.rest, i + 1, n, tolerated);
    }
  }

  lemma RunIsPlanned(k: Sure, fs: Files<Role>, script: Script<Role>, n: nat, tolerated: set<nat>, outs: seq<Outcome>)
    requires Fits(k, fs) && Planned(k, script, 0, n, tolerated)
    ensures Run(fs, script, outs).1 <==> DoneBut(outs, n, tolerated)
  {
    assert outs[0..] == outs;
    PlannedEnds(k, fs, script, 0, n, tolerated, outs);
  }

  lemma SwapPlanned(k: Sure, edit: Edit, i: nat, tolerated: set<nat>)
    requires k.temp && i !in tolerated && i + 1 !in tolerated && i + 2 in tolerated && i + 3 !in tolerated
    ensures Planned(k, Swap(edit), i, i + 4, tolerated)
  {
    var k1 := Put(Taken(k, Temp), Target);
    var last := Then(Tool(Target, edit, true), Then(Check(Target), End));
    assert Planned(k1, Then(Check(Target), End), i + 3, i + 4, tolerated);
    assert Planned(k1, last, i + 2, i + 4, tolerated);
    assert Planned(k1, Then(Chmod(Target), last), i + 1, i + 4, tolerated);
  }

  ghost predicate Strict(i: nat, n: nat, tolerated: set<nat>) {
    forall j :: i <= j < n ==> j !in tolerated
  }

  lemma CheckTempPlanned(k: Sure, rest: Script<Role>, i: nat, n: nat, tolerated: set<nat>)
    requires k.temp && Strict(i, i + 3, tolerated) && Planned(k, rest, i + 3, n, tolerated)
    ensures Planned(k, CheckTemp(rest), i, n, tolerated)
  {
    assert Planned(k, Then(Check(Temp), rest), i + 2, n, tolerated);
    assert Planned(k, Then(Chmod(Temp), Then(Check(Temp), rest)), i + 1, n, tolerated);
  }

  lemma BuildFromPlanned(k: Sure, compressed: bool, rest: Script<Role>, n: nat, tolerated: set<nat>)
    requires k.source && (if compressed then Strict(0, 4, tolerated) && 4 in tolerated && Strict(5, 8, tolerated)
                          else Strict(0, 6, tolerated))
    requires Planned(k.(temp := true, noTemp := false), rest, if compressed then 8 else 6, n, tolerated)
    ensures Planned(k, BuildFrom(compressed, rest), 0, n, tolerated)
  {
    var built, clear := k.(temp := true, noTemp := false), k.(temp := false, noTemp := true);
    if compressed {
      CheckTempPlanned(built, rest, 5, n, tolerated);
      var removed := Then(Remove([Unpacked], true), CheckTemp(rest));
      assert Planned(built, removed, 4, n, tolerated);
      assert Planned(clear, Then(Build(Temp), removed), 3, n, tolerated);
      BeganPlanned(k, Then(Write(Unpacked), Then(Build(Temp), removed)), n, tolerated);
    } else {
      CheckTempPlanned(built, rest, 3, n, tolerated);
      BeganPlanned(k, Then(Build(Temp), CheckTemp(rest)), n, tolerated);
    }
  }

  lemma BeganPlanned(k: Sure, rest: Script<Role>, n: nat, tolerated: set<nat>)
    requires k.source && Strict(0, 2, tolerated) && Planned(k.(temp := false, noTemp := true), rest, 2, n, tolerated)
    ensures Planned(k, Then(TestFile(Source), Then(Remove([Temp], false), rest)), 0, n, tolerated)
  {
    assert Planned(k, Then(Remove([Temp], false), rest), 1, n, tolerated);
  }

  lemma SaveFirstPlanned(k: Sure, rest: Script<Role>, n: nat, tolerated: set<nat>)
    requires k.target && Strict(0, 3, tolerated) && 3 in tolerated
    requires Planned(k.(temp := false, noTemp := true), rest, 4, n, tolerated)
    ensures Planned(k, SaveFirst(rest), 0, n, tolerated)
  {
    var clear, shut := k.(temp := false, noTemp := true), Then(Tool(Target, Shutdown, true), rest);
    assert Planned(clear, shut, 3, n, tolerated);
    assert Planned(clear, Then(Copy(Target, Safety, false), shut), 2, n, tolerated);
    assert Planned(k, Then(Remove([Raw, Dump, Temp], false), Then(Copy(Target, Safety, false), shut)), 1, n, tolerated);
  }

  lemma RebuildPlanned(k: Sure, rest: Script<Role>, i: nat, n: nat, tolerated: set<nat>)
    requires k.noTemp && Strict(i, i + 9, tolerated)
    requires Planned(k.(temp := true, noTemp := false), rest, i + 9, n, tolerated)
    ensures Planned(k, Rebuild(rest), i, n, tolerated)
  {
    var built := k.(temp := true, noTemp := false);
    CheckTempPlanned(built, rest, i + 6, n, tolerated);
    assert Planned(built, Then(Remove([Unpacked], false), CheckTemp(rest)), i + 5, n, tolerated);
    DumpedPlanned(k, Then(Build(Temp), Then(Remove([Unpacked], false), CheckTemp(rest))), i, n, tolerated);
  }

  lemma DumpedPlanned(k: Sure, rest: Script<Role>, i: nat, n: nat, tolerated: set<nat>)
    requires Strict(i, i + 4, tolerated) && Planned(k, rest, i + 4, n, tolerated)
    ensures Planned(k, Then(Write(Raw), Then(Write(Dump), Then(Remove([Raw], false), Then(Write(Unpacked), rest)))),
                    i, n, tolerated)
  {
    assert Planned(k, Then(Write(Unpacked), rest), i + 3, n, tolerated);
    assert Planned(k, Then(Remove([Raw], false), Then(Write(Unpacked), rest)), i + 2, n, tolerated);
  }

  /** The maintenance scripts finish if and only if the database is there and every step is done but for the gfix
      calls whose failure they tolerate: -shut before the change and before the swap, -online, and in
      auto-maintenance the -mend; disabling the indexes is not one. */
  lemma MaintenanceEnds(before: Files<Role>, outs: seq<Outcome>)
    ensures Run(before, DisableIndexes(), outs).1 <==> Target in before && DoneBut(outs, 19, {3, 14, 17})
    ensures Run(before, AutoMaintenance(), outs).1 <==> Target in before && DoneBut(outs, 19, {3, 4, 14, 17})
  {
    if Target in before {
      ChangeEnds(before, Tool(Target, IndexesOff, false), outs);
      ChangeEnds(before, Tool(Target, Mended, true), outs);
    } else {
      assert DisableIndexes().step == AutoMaintenance().step == TestFile(Target);
    }
  }

  lemma ChangeEnds(before: Files<Role>, change: Step<Role>, outs: seq<Outcome>)
    requires Target in before && change.Tool? && change.path == Target
    ensures Run(before, SaveFirst(Then(change, Rebuild(Then(Tool(Target, Shutdown, true), Swap(Online))))), outs).1
      <==> DoneBut(outs, 19, if change.tolerated then {3, 4, 14, 17} else {3, 14, 17})
  {
    var tolerated: set<nat> := if change.tolerated then {3, 4, 14, 17} else {3, 14, 17};
    var k := Sure(true, false, false, false);
    var changed := Then(change, Rebuild(Then(Tool(Target, Shutdown, true), Swap(Online))));
    ChangePlanned(change, tolerated);
    SaveFirstPlanned(k, changed, 19, tolerated);
    RunIsPlanned(k, before, SaveFirst(changed), 19, tolerated, outs);
  }

  lemma ChangePlanned(change: Step<Role>, tolerated: set<nat>)
    requires change.Tool? && change.path == Target && tolerated - {4} == {3, 14, 17}
    requires change.tolerated <==> 4 in tolerated
    ensures Planned(Sure(true, false, false, true),
                    Then(change, Rebuild(Then(Tool(Target, Shutdown, true), Swap(Online)))), 4, 19, tolerated)
  {
    assert forall i :: i in tolerated <==> i in tolerated - {4} || (i == 4 && change.tolerated);
    var clear, built := Sure(true, false, false, true), Sure(true, false, true, false);
    var swap := Then(Tool(Target, Shutdown, true), Swap(Online));
    SwapPlanned(built, Online, 15, tolerated);
    assert Planned(built, swap, 14, 19, tolerated);
    RebuildPlanned(clear, swap, 5, 19, tolerated);
  }

  /** The restores finish if and only if the source is there and every step is done but for removing the unpacked
      backup and the gfix calls: from-upload tolerates its -shut and its -online, the standby restore its
      -mode read_only. */
  lemma RestoresEnd(compressed: bool, before: Files<Role>, outs: seq<Outcome>)
    ensures Run(before, FromUpload(compressed), outs).1
      <==> Source in before && if compressed then DoneBut(outs, 14, {4, 8, 12}) else DoneBut(outs, 12, {6, 10})
    ensures Run(before, StandbyRestore(compressed), outs).1
      <==> Source in before && if compressed then DoneBut(outs, 12, {4, 10}) else DoneBut(outs, 10, {8})
  {
    if Source in before {
      UploadEnds(compressed, before, outs);
      StandbyEnds(compressed, before, outs);
    } else {
      assert FromUpload(compressed).step == StandbyRestore(compressed).step == TestFile(Source);
    }
  }

  lemma UploadEnds(compressed: bool, before: Files<Role>, outs: seq<Outcome>)
    requires Source in before
    ensures Run(before, FromUpload(compressed), outs).1
      <==> if compressed then DoneBut(outs, 14, {4, 8, 12}) else DoneBut(outs, 12, {6, 10})
  {
    var tolerated: set<nat> := if compressed then {4, 8, 12} else {6, 10};
    var k, built, shut := Sure(false, true, false, false), Sure(false, true, true, false), ShutStep(compressed);
    SwapPlanned(built, Online, shut + 2, tolerated);
    assert Planned(built, CopyAndSwap(), shut + 1, shut + 6, tolerated);
    BuildFromPlanned(k, compressed, Then(Tool(Target, Shutdown, true), CopyAndSwap()), shut + 6, tolerated);
    RunIsPlanned(k, before, FromUpload(compressed), shut + 6, tolerated, outs);
  }

  lemma StandbyEnds(compressed: bool, before: Files<Role>, outs: seq<Outcome>)
    requires Source in before
    ensures Run(before, StandbyRestore(compressed), outs).1
      <==> if compressed then DoneBut(outs, 12, {4, 10}) else DoneBut(outs, 10, {8})
  {
    var tolerated: set<nat> := if compressed then {4, 10} else {8};
    var k, n := Sure(false, true, false, false), if compressed then 8 else 6;
    SwapPlanned(Sure(false, true, true, false), ReadOnly, n, tolerated);
    BuildFromPlanned(k, compressed, Swap(ReadOnly), n + 4, tolerated);
    RunIsPlanned(k, before, StandbyRestore(compressed), n + 4, tolerated, outs);
  }

  /** The physical restore finishes if and only if the received file is there and every step is done, nbackup
      and both gstat included, but for gfix -mode read_only. */
  lemma PhysicalEnds(before: Files<Role>, outs: seq<Outcome>)
    ensures Run(before, PhysicalRestore(), outs).1 <==> Temp in before && DoneBut(outs, 7, {5})
  {
    if Temp in before {
      var k := Sure(false, false, true, false);
      SwapPlanned(k, ReadOnly, 3, {5});
      assert Planned(k, Then(Check(Temp), Swap(ReadOnly)), 2, 7, {5});
      assert Planned(k, Then(Tool(Temp, Unlocked, false), Then(Check(Temp), Swap(ReadOnly))), 1, 7, {5});
      RunIsPlanned(k, before, PhysicalRestore(), 7, {5}, outs);
    } else {
      assert PhysicalRestore().step == TestFile(Temp);
    }
  }

  /** The script ends with that tail. */
  predicate EndsWith(script: Script<Role>, tail: Script<Role>) {
    script == tail || (script.Then? && EndsWith(script.rest, tail))
  }

  predicate AllDone(outs: seq<Outcome>) {
    forall i :: 0 <= i < |outs| ==> outs[i].Done?
  }

  predicate LastRun(fs: Files<Role>, edit: Edit) {
    Target in fs && fs[Target].edits != [] && fs[Target].edits[|fs[Target].edits| - 1] == edit
  }

  /** With every step done, the last tool to run on the new target is the swap's, and nothing is left of the
      temporary file. */
  lemma {:induction false} SwapLeaves(fs: Files<Role>, script: Script<Role>, edit: Edit, outs: seq<Outcome>)
    requires EndsWith(script, Swap(edit)) && AllDone(outs) && Run(fs, script, outs).1
    ensures var done := Run(fs, script, outs).0;
      Temp !in done && LastRun(done, edit)
    decreases script
  {
    if script == Swap(edit) {
      SwapDone(fs, edit, outs);
    } else {
      var fs' := Ran(fs, script.step, outs[0]).0;
      SwapLeaves(fs', script.rest, edit, outs[1..]);
    }
  }

  lemma SwapDone(fs: Files<Role>, edit: Edit, outs: seq<Outcome>)
    requires AllDone(outs) && Run(fs, Swap(edit), outs).1
    ensures var done := Run(fs, Swap(edit), outs).0;
      Temp !in done && LastRun(done, edit)
  {
    assert outs[0].Done? && Temp in fs;
    var fs1 := (fs - {Temp})[Target := fs[Temp]];
    assert Run(fs, Swap(edit), outs) == Run(fs1, Swap(edit).rest, outs[1..]);
    assert outs[1..][0] == outs[1];
    assert Run(fs1, Swap(edit).rest, outs[1..]) == Run(fs1, Swap(edit).rest.rest, outs[1..][1..]);
    assert outs[1..][1..][0] == outs[2];
    var fs2 := fs1[Target := fs1[Target].(edits := fs1[Target].edits + [edit])];
    assert Run(fs1, Swap(edit).rest.rest, outs[1..][1..]) == Run(fs2, Swap(edit).rest.rest.rest, outs[1..][1..][1..]);
    assert outs[1..][1..][1..][0] == outs[3];
  }

  /** What a run with every step done leaves: it finishes, and the new target was last run by that tool. */
  ghost predicate DoneLeaves(before: Files<Role>, script: Script<Role>, edit: Edit, n: nat) {
    var (done, finished) := Run(before, script, Dones(n));
    finished && Temp !in done && LastRun(done, edit)
  }

  /** Where the database is there and nothing fails, the maintenance scripts finish with a new target that was
      brought online last, whatever temporary files are left over from before. */
  lemma MaintenanceFinishes(before: Files<Role>)
    requires Target in before
    ensures DoneLeaves(before, DisableIndexes(), Online, 19) && DoneLeaves(before, AutoMaintenance(), Online, 19)
  {
    MaintenanceEnds(before, Dones(19));
    MaintenanceTail(Tool(Target, IndexesOff, false));
    SwapLeaves(before, DisableIndexes(), Online, Dones(19));
    MaintenanceTail(Tool(Target, Mended, true));
    SwapLeaves(before, AutoMaintenance(), Online, Dones(19));
  }

  lemma MaintenanceTail(change: Step<Role>)
    ensures EndsWith(SaveFirst(Then(change, Rebuild(Then(Tool(Target, Shutdown, true), Swap(Online))))), Swap(Online))
  {
    var swap := Then(Tool(Target, Shutdown, true), Swap(Online));
    assert EndsWith(swap, Swap(Online));
    var c2 := Then(Chmod(Temp), Then(Check(Temp), swap));
    assert EndsWith(c2.rest, Swap(Online)) && EndsWith(c2, Swap(Online)) && EndsWith(CheckTemp(swap), Swap(Online));
    var b1 := Then(Build(Temp), Then(Remove([Unpacked], false), CheckTemp(swap)));
    assert EndsWith(b1.rest, Swap(Online)) && EndsWith(b1, Swap(Online));
    var b2 := Then(Remove([Raw], false), Then(Write(Unpacked), b1));
    assert EndsWith(b2.rest, Swap(Online)) && EndsWith(b2, Swap(Online));
    assert EndsWith(Then(Write(Dump), b2), Swap(Online)) && EndsWith(Rebuild(swap), Swap(Online));
    var s1 := Then(Tool(Target, Shutdown, true), Then(change, Rebuild(swap)));
    assert EndsWith(s1.rest, Swap(Online)) && EndsWith(s1, Swap(Online));
    var s2 := Then(Copy(Target, Safety, false), s1);
    assert EndsWith(s2, Swap(Online)) && EndsWith(Then(Remove([Raw, Dump, Temp], false), s2), Swap(Online));
  }

  lemma BuildFromTail(compressed: bool, rest: Script<Role>, tail: Script<Role>)
    requires EndsWith(rest, tail)
    ensures EndsWith(BuildFrom(compressed, rest), tail)
  {
    var c2 := Then(Chmod(Temp), Then(Check(Temp), rest));
    assert EndsWith(c2.rest, tail) && EndsWith(c2, tail) && EndsWith(CheckTemp(rest), tail);
    if compressed {
      var b := Then(Build(Temp), Then(Remove([Unpacked], true), CheckTemp(rest)));
      assert EndsWith(b.rest, tail) && EndsWith(b, tail);
      var w := Then(Remove([Temp], false), Then(Write(Unpacked), b));
      assert EndsWith(w.rest, tail) && EndsWith(w, tail);
    } else {
      var w := Then(Remove([Temp], false), Then(Build(Temp), CheckTemp(rest)));
      assert EndsWith(w.rest, tail) && EndsWith(w, tail);
    }
  }

  /** Where the source is there and nothing fails, from-upload finishes with a target brought online last, and the
      standby restore with one set read only last. */
  lemma RestoresFinish(compressed: bool, before: Files<Role>)
    requires Source in before
    ensures DoneLeaves(before, FromUpload(compressed), Online, if compressed then 14 else 12)
    ensures DoneLeaves(before, StandbyRestore(compressed), ReadOnly, if compressed then 12 else 10)
  {
    var n := if compressed then 14 else 12;
    RestoresEnd(compressed, before, Dones(n));
    RestoreTails(compressed);
    SwapLeaves(before, FromUpload(compressed), Online, Dones(n));
    RestoresEnd(compressed, before, Dones(n - 2));
    SwapLeaves(before, StandbyRestore(compressed), ReadOnly, Dones(n - 2));
  }

  lemma RestoreTails(compressed: bool)
    ensures EndsWith(FromUpload(compressed), Swap(Online)) && EndsWith(StandbyRestore(compressed), Swap(ReadOnly))
  {
    var rest := Then(Tool(Target, Shutdown, true), CopyAndSwap());
    assert EndsWith(CopyAndSwap(), Swap(Online)) && EndsWith(rest, Swap(Online));
    BuildFromTail(compressed, rest, Swap(Online));
    BuildFromTail(compressed, Swap(ReadOnly), Swap(ReadOnly));
  }

  /** Where the received file is there and nothing fails, the physical restore finishes with it set read only. */
  lemma PhysicalFinishes(before: Files<Role>)
    requires Temp in before
    ensures DoneLeaves(before, PhysicalRestore(), ReadOnly, 7)
  {
    var c := Then(Check(Temp), Swap(ReadOnly));
    assert EndsWith(c, Swap(ReadOnly)) && EndsWith(Then(Tool(Temp, Unlocked, false), c), Swap(ReadOnly));
    PhysicalEnds(before, Dones(7));
    SwapLeaves(before, PhysicalRestore(), ReadOnly, Dones(7));
  }

  // ----- what a step that fails leaves -----

  /** Before it has an effect nothing has changed. Afterwards a removal is as far as it came, a file that was being
      written or copied is incomplete and unchecked, a file changed in place carries the edit, and a rename and
      the tests leave all as it was. */
  lemma BrokenExactly(fs: Files<Role>, step: Step<Role>, extent: nat)
    ensures Ran(fs, step, Broken(0)).0 == fs
    ensures extent > 0 ==>
      var done := Ran(fs, step, Broken(extent)).0;
      match step
      case Remove(ps, _) =>
        forall p :: p in done <==> p in fs && !exists i :: 0 <= i < extent && i < |ps| && ps[i] == p
      case Copy(from, to, _) =>
        done == if from in fs then fs[to := Image(fs[from].original, fs[from].edits, false, false)] else fs
      case Write(p) => done == fs[p := Image(false, [], false, false)]
      case Build(p) => done == if p in fs then fs else fs[p := Image(false, [], false, false)]
      case Tool(p, edit, _) => done == if p in fs then fs[p := fs[p].(edits := fs[p].edits + [edit])] else fs
      case _ => done == fs
    ensures forall p :: p in fs && step.Remove? && p in Ran(fs, step, Broken(extent)).0 ==>
      Ran(fs, step, Broken(extent)).0[p] == fs[p]
  {
    if step.Remove? {
      assert fs - (set p | p in step.paths[..0]) == fs;
    }
  }
}
