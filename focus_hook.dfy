/**
 * Focus muting: when a window gains focus, every target of every registered
 * Echo unit whose focus rule is set has its focus-muted flag recomputed from
 * whether the rule names the focused window's executable.
 */
module FocusHook {
  import opened Winmm
  import opened Ordering
  import opened Paths
  import opened Echo

  /** The WinEvent id of a focus change. */
  const EVENT_OBJECT_FOCUS: nat := 0x8005

  /**
   * Whether the focus rule `rule` names the executable at `window`: a rule
   * with a parent path must equal the window path as a path, that is with
   * runs of separators of either spelling counted as one; a bare rule must equal
   * the window's filename when the rule has an extension, or the window's
   * filename with its extension removed.
   */
  predicate FocusMatch(rule: string, window: string)
  {
    if HasParentPath(rule) then Collapse(rule) == Collapse(window)
    else
      (HasExtension(rule) && Filename(rule) == Filename(window)) ||
      Filename(rule) == Stem(Filename(window))
  }

  /** One target after a focus change to `window`. */
  function RefocusEntry(t: Target, window: string): (r: Target)
    ensures r.(focusMuted := t.focusMuted) == t
    ensures t.focusMutePath == [] ==> r == t
    ensures t.focusMutePath != [] ==> (r.focusMuted <==> !FocusMatch(t.focusMutePath, window))
  {
    if t.focusMutePath == [] then t
    else t.(focusMuted := !FocusMatch(t.focusMutePath, window))
  }

  /** The target map with the entries whose ids lie in `done` refocused. */
  function RefocusSome(targets: map<DeviceId, Target>, done: set<DeviceId>, window: string): (r: map<DeviceId, Target>)
    ensures r.Keys == targets.Keys
    ensures forall id | id in targets :: r[id] == if id in done then RefocusEntry(targets[id], window) else targets[id]
  {
    map id | id in targets :: if id in done then RefocusEntry(targets[id], window) else targets[id]
  }

  /** One more entry refocused. */
  lemma RefocusStep(targets: map<DeviceId, Target>, done: set<DeviceId>, id: DeviceId, window: string)
    requires id in targets && id !in done
    ensures RefocusSome(targets, done, window)[id := RefocusEntry(targets[id], window)] ==
      RefocusSome(targets, done + {id}, window)
  {
  }

  /** The target map of one Echo unit after a focus change to `window`. */
  function Refocused(targets: map<DeviceId, Target>, window: string): (r: map<DeviceId, Target>)
  {
    RefocusSome(targets, targets.Keys, window)
  }

  /**
   * What a focus change does to one target map: the key set is kept, no
   * field but the focus-muted flag changes, a target without a rule keeps
   * that flag, and a target with a rule is focus-muted exactly when the rule
   * does not match the window.
   */
  lemma RefocusedEffect(targets: map<DeviceId, Target>, window: string)
    ensures Refocused(targets, window).Keys == targets.Keys
    ensures forall id | id in targets ::
      var r := Refocused(targets, window)[id];
      && r.handle == targets[id].handle
      && r.muted == targets[id].muted
      && r.focusMutePath == targets[id].focusMutePath
      && (targets[id].focusMutePath == [] ==> r.focusMuted == targets[id].focusMuted)
      && (targets[id].focusMutePath != [] ==> (r.focusMuted <==> !FocusMatch(targets[id].focusMutePath, window)))
  {
    forall id | id in targets
      ensures Refocused(targets, window)[id] == RefocusEntry(targets[id], window)
    {
    }
  }

  /** Refocusing twice with the same window is the same as refocusing once. */
  lemma RefocusedIdempotent(targets: map<DeviceId, Target>, window: string)
    ensures Refocused(Refocused(targets, window), window) == Refocused(targets, window)
  {
    var once := Refocused(targets, window);
    forall id | id in once
      ensures Refocused(once, window)[id] == once[id]
    {
      assert once[id] == RefocusEntry(targets[id], window);
    }
  }

  /**
   * A rule with a parent path matches exactly the windows whose path has the
   * same elements: the spelling of the separators is irrelevant, and so is
   * a doubled separator, in either direction.
   */
  lemma FullPathRule(rule: string, window: string)
    requires HasParentPath(rule)
    ensures FocusMatch(rule, window) <==> Collapse(rule) == Collapse(window)
    ensures FocusMatch(rule, rule) && FocusMatch(rule, Backslashed(rule))
    ensures FocusMatch(rule, window) ==> FocusMatch(rule, Collapse(window))
  {
    CollapseIgnoresSlashes(rule);
    CollapseIdempotent(window);
  }

  /**
   * A full-path rule spelled with `/` and a doubled separator, such as
   * C:/x//a.exe, matches the window C:\x\a.exe.
   */
  lemma SeparatorSpelling(drive: string, dir: string, file: string)
    requires forall i | 0 <= i < |drive| :: !IsSep(drive[i])
    requires dir != [] && forall i | 0 <= i < |dir| :: !IsSep(dir[i])
    requires forall i | 0 <= i < |file| :: !IsSep(file[i])
    ensures FocusMatch(drive + "/" + dir + "//" + file, drive + "\\" + dir + "\\" + file)
  {
    var rule := drive + "/" + dir + "//" + file;
    assert IsSep(rule[|drive|]);
    SeparatorRuns(drive, dir, file, "/", "//", "\\", "\\");
    FullPathRule(rule, drive + "\\" + dir + "\\" + file);
  }

  /** A rule without a parent path is compared with the window's filename only. */
  lemma BareRule(rule: string, window: string)
    requires !HasParentPath(rule)
    ensures FocusMatch(rule, window) <==>
      (HasExtension(rule) && Filename(rule) == Filename(window)) || Filename(rule) == Stem(Filename(window))
  {
  }

  /** An executable name and its extension, joined, hold no separator. */
  lemma NoSepInFile(name: string, ext: string)
    requires forall i | 0 <= i < |name| :: !IsSep(name[i])
    requires ext != [] && forall i | 0 < i < |ext| :: !IsSep(ext[i])
    requires ext[0] == '.'
    ensures forall i | 0 <= i < |name + ext| :: !IsSep((name + ext)[i])
  {
    forall i | 0 <= i < |name + ext| ensures !IsSep((name + ext)[i]) {
      if i >= |name| { assert (name + ext)[i] == ext[i - |name|]; }
    }
  }

  /** The window path of an executable in some directory has the executable's file as its filename. */
  lemma WindowFilename(dir: string, name: string, ext: string)
    requires forall i | 0 <= i < |name| :: !IsSep(name[i])
    requires ext != [] && ext[0] == '.' && forall i | 0 < i < |ext| :: !IsSep(ext[i])
    ensures Filename(dir + "\\" + (name + ext)) == name + ext
  {
    NoSepInFile(name, ext);
    FilenameOfJoin(dir, name + ext);
  }

  /** A bare executable name matches a window whose file is that name with an extension. */
  lemma {:induction false} BareStemMatches(name: string, ext: string, window: string)
    requires name != [] && forall i | 0 <= i < |name| :: name[i] != '.' && !IsSep(name[i])
    requires ext != [] && ext[0] == '.' && forall i | 0 < i < |ext| :: ext[i] != '.'
    requires Filename(window) == name + ext
    ensures FocusMatch(name, window)
  {
    SplitExtension(name, ext);
    assert !HasParentPath(name);
    BareFilename(name);
    BareRule(name, window);
  }

  /** A bare file name with an extension matches a window whose file has that name. */
  lemma {:induction false} BareFileMatches(name: string, ext: string, window: string)
    requires name != [] && forall i | 0 <= i < |name| :: name[i] != '.' && !IsSep(name[i])
    requires ext != [] && ext[0] == '.' && forall i | 0 < i < |ext| :: ext[i] != '.' && !IsSep(ext[i])
    requires Filename(window) == name + ext
    ensures FocusMatch(name + ext, window)
  {
    var file := name + ext;
    NoSepInFile(name, ext);
    SplitExtension(name, ext);
    assert !HasParentPath(file);
    BareFilename(file);
    BareRule(file, window);
  }

  /**
   * A bare rule naming an executable matches that executable in any
   * directory, spelled with its extension (`reaper.exe`) or without it
   * (`reaper`).
   */
  lemma {:induction false} BareRuleMatchesAnyDirectory(dir: string, name: string, ext: string)
    requires name != [] && forall i | 0 <= i < |name| :: name[i] != '.' && !IsSep(name[i])
    requires ext != [] && ext[0] == '.' && forall i | 0 < i < |ext| :: ext[i] != '.' && !IsSep(ext[i])
    ensures FocusMatch(name, dir + "\\" + name + ext)
    ensures FocusMatch(name + ext, dir + "\\" + name + ext)
  {
    var window := dir + "\\" + (name + ext);
    assert dir + "\\" + name + ext == window;
    WindowFilename(dir, name, ext);
    BareStemMatches(name, ext, window);
    BareFileMatches(name, ext, window);
  }

  /** A bare rule looks only at the filename: the directory of the window is irrelevant. */
  lemma BareRuleIgnoresDirectory(rule: string, w1: string, w2: string)
    requires !HasParentPath(rule) && Filename(w1) == Filename(w2)
    ensures FocusMatch(rule, w1) <==> FocusMatch(rule, w2)
  {
  }

  /** The rule "reaper" and the window C:\Program Files\REAPER\reaper.exe. */
  lemma ReaperExample()
    ensures FocusMatch("reaper", "C:\\Program Files\\REAPER\\reaper.exe")
    ensures FocusMatch("reaper.exe", "C:\\Program Files\\REAPER\\reaper.exe")
  {
    var dir, window := "C:\\Program Files\\REAPER", "C:\\Program Files\\REAPER\\reaper.exe";
    var name, ext := "reaper", ".exe";
    assert window == dir + "\\" + name + ext;
    assert name + ext == "reaper.exe";
    BareRuleMatchesAnyDirectory(dir, name, ext);
  }

  /** The body of the inner loop of focusHook: one target, skipped when its rule is empty. */
  method RefocusTarget(e: Echoer, id: DeviceId, window: string)
    requires id in e.targets
    modifies e
    ensures e.source == old(e.source) && e.isOpen == old(e.isOpen) && e.isEchoing == old(e.isEchoing)
    ensures e.targets == old(e.targets)[id := RefocusEntry(old(e.targets)[id], window)]
  {
    var t := e.targets[id];
    if t.focusMutePath != [] {
      e.targets := e.targets[id := t.(focusMuted := !FocusMatch(t.focusMutePath, window))];
    } else {
      assert e.targets == e.targets[id := t];
    }
  }

  /**
   * The inner loop of focusHook for one Echo unit: each target, in id
   * order, gets its focus-muted flag recomputed unless its rule is empty.
   */
  method RefocusTargets(e: Echoer, window: string)
    modifies e
    ensures e.State() == old(e.State()).(targets := Refocused(old(e.targets), window))
  {
    ghost var before := e.targets;
    var todo := e.targets.Keys;
    while todo != {}
      invariant todo <= before.Keys
      invariant e.source == old(e.source) && e.isOpen == old(e.isOpen) && e.isEchoing == old(e.isEchoing)
      invariant e.targets == RefocusSome(before, before.Keys - todo, window)
      decreases |todo|
    {
      var id := LeastId(todo);
      RefocusStep(before, before.Keys - todo, id, window);
      RefocusTarget(e, id, window);
      assert before.Keys - todo + {id} == before.Keys - (todo - {id});
      todo := todo - {id};
    }
  }

  /**
   * The set of Echo units the focus hook updates (`registered_echoers`), and
   * the hook itself.
   */
  class FocusTracker {
    var registered: set<Echoer>

    constructor ()
      ensures registered == {}
    {
      registered := {};
    }

    /** registerEchoer: set insertion, so registering twice is registering once. */
    method RegisterEchoer(e: Echoer)
      modifies this
      ensures registered == old(registered) + {e}
    {
      registered := registered + {e};
    }

    /** unregisterEchoer: set erasure; an unregistered unit is left as it is. */
    method UnregisterEchoer(e: Echoer)
      modifies this
      ensures registered == old(registered) - {e}
    {
      registered := registered - {e};
    }

    /**
     * focusHook(event, window): only a focus event with a resolved window
     * path changes anything, and then it refocuses the targets of every
     * registered unit and of no other.
     */
    method OnEvent(eventId: nat, window: string)
      modifies registered
      ensures eventId != EVENT_OBJECT_FOCUS || window == [] ==>
        forall e | e in registered :: e.State() == old(e.State())
      ensures eventId == EVENT_OBJECT_FOCUS && window != [] ==>
        forall e | e in registered :: e.State() == old(e.State()).(targets := Refocused(old(e.targets), window))
    {
      if eventId != EVENT_OBJECT_FOCUS || window == [] {
        return;
      }
      var todo := registered;
      while todo != {}
        invariant todo <= registered
        invariant forall e | e in registered && e !in todo ::
          e.State() == old(e.State()).(targets := Refocused(old(e.targets), window))
        invariant forall e | e in todo :: e.State() == old(e.State())
        decreases |todo|
      {
        var e :| e in todo;
        RefocusTargets(e, window);
        todo := todo - {e};
      }
    }
  }
}
