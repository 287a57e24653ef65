/** Recovering the shell environment the launcher was started from. When
    the launcher itself runs inside a resolved Rez context, every
    path-list variable is rolled back by dropping the segments that the
    context contributed, so that applications start from the parent
    environment. Loading the context and reading its environment are
    Rez calls; both environments are inputs here: `changed`, the
    launcher's own environment (a copy of `os.environ`), and `history`,
    the environment the resolved context produces. */
module CliEnviron {
  import opened Text

  /** Environment variables by name. */
  type Environ = map<string, string>

  /** The segments of `segments` that are not in `history`, in their
      original order and with their repetitions. */
  function KeepAbsent(segments: seq<string>, history: seq<string>): seq<string>
  {
    if segments == [] then []
    else
      var last := segments[|segments| - 1];
      KeepAbsent(segments[..|segments| - 1], history) + (if last in history then [] else [last])
  }

  /** A segment survives exactly when it is one of the segments and not in the history. */
  lemma {:induction false} KeepAbsentMembers(segments: seq<string>, history: seq<string>, x: string)
    ensures x in KeepAbsent(segments, history) <==> x in segments && x !in history
    decreases |segments|
  {
    if segments != [] {
      var init := segments[..|segments| - 1];
      KeepAbsentMembers(init, history, x);
      assert segments == init + [segments[|segments| - 1]];
    }
  }

  /** Each surviving segment keeps its number of occurrences. */
  lemma {:induction false} KeepAbsentCounts(segments: seq<string>, history: seq<string>, x: string)
    ensures multiset(KeepAbsent(segments, history))[x] == if x in history then 0 else multiset(segments)[x]
    decreases |segments|
  {
    if segments != [] {
      var init := segments[..|segments| - 1];
      KeepAbsentCounts(init, history, x);
      assert segments == init + [segments[|segments| - 1]];
    }
  }

  /** Filtering commutes with concatenation, so the survivors keep their
      relative order. */
  lemma {:induction false} KeepAbsentAppend(a: seq<string>, b: seq<string>, history: seq<string>)
    ensures KeepAbsent(a + b, history) == KeepAbsent(a, history) + KeepAbsent(b, history)
    decreases |b|
  {
    if b == [] {
      assert a + b == a;
    } else {
      var init := b[..|b| - 1];
      KeepAbsentAppend(a, init, history);
      assert (a + b)[..|a + b| - 1] == a + init;
    }
  }

  /** With nothing of it in the history, every segment survives. */
  lemma {:induction false} KeepAbsentNone(segments: seq<string>, history: seq<string>)
    requires forall i :: 0 <= i < |segments| ==> segments[i] !in history
    ensures KeepAbsent(segments, history) == segments
    decreases |segments|
  {
    if segments != [] {
      KeepAbsentNone(segments[..|segments| - 1], history);
    }
  }

  /** Collects the segments of one variable that the history lacks. */
  method RollbackPaths(changedPaths: seq<string>, historyPaths: seq<string>) returns (rollPaths: seq<string>)
    ensures rollPaths == KeepAbsent(changedPaths, historyPaths)
    ensures forall x :: x in rollPaths <==> x in changedPaths && x !in historyPaths
  {
    rollPaths := [];
    for i := 0 to |changedPaths|
      invariant rollPaths == KeepAbsent(changedPaths[..i], historyPaths)
    {
      var path := changedPaths[i];
      assert changedPaths[..i + 1][..i] == changedPaths[..i];
      if path !in historyPaths {
        rollPaths := rollPaths + [path];
      }
    }
    assert changedPaths[..|changedPaths|] == changedPaths;
    forall x ensures x in rollPaths <==> x in changedPaths && x !in historyPaths {
      KeepAbsentMembers(changedPaths, historyPaths, x);
    }
  }

  /** The history's segments of a variable; a variable the history lacks
      reads as the empty string, whose only segment is empty. */
  function HistoryPaths(history: Environ, key: string, sep: char): seq<string>
  {
    Split(if key in history then history[key] else "", sep)
  }

  /** The segments of a variable of the launcher's environment that the rollback keeps. */
  function RolledSegments(changed: Environ, history: Environ, key: string, sep: char): seq<string>
    requires key in changed
  {
    KeepAbsent(Split(changed[key], sep), HistoryPaths(history, key, sep))
  }

  /** The rolled-back environment: each variable of the launcher's environment with a surviving
      segment, set to its surviving segments joined by the separator. */
  function RolledBack(changed: Environ, history: Environ, sep: char): Environ
  {
    RolledBackOn(changed, history, sep, changed.Keys)
  }

  /** The rolled-back entries of the variables in `done`. */
  function RolledBackOn(changed: Environ, history: Environ, sep: char, done: set<string>): Environ
    requires done <= changed.Keys
  {
    Entries(done, RollbackEntry(changed, history, sep))
  }

  /** The rolled-back value of one variable, if any segment of it survives. */
  function RollbackEntry(changed: Environ, history: Environ, sep: char): string -> Option<string>
  {
    key =>
      if key in changed && RolledSegments(changed, history, key, sep) != []
      then Some(Join(RolledSegments(changed, history, key, sep), sep))
      else None
  }

  /** The map of the keys in `done` that have an entry, to their entries. */
  function Entries(done: set<string>, entry: string -> Option<string>): map<string, string>
  {
    map key | key in done && entry(key).Some? :: entry(key).value
  }

  /** Handling one more key adds its entry, if it has one, and nothing else. */
  lemma EntriesStep(done: set<string>, entry: string -> Option<string>, key: string)
    requires key !in done
    ensures Entries(done + {key}, entry) ==
      if entry(key).Some? then Entries(done, entry)[key := entry(key).value] else Entries(done, entry)
  {
    var before := Entries(done, entry);
    var after := Entries(done + {key}, entry);
    var expected := if entry(key).Some? then before[key := entry(key).value] else before;
    assert after.Keys == expected.Keys;
  }

  /** Moving one key from the pending set to the handled set. */
  lemma MoveKey(all: set<string>, pending: set<string>, key: string)
    requires key in pending && pending <= all
    ensures (all - pending) + {key} == all - (pending - {key})
  {
  }

  /** The loop over the launcher's environment that builds the rolled-back map. */
  method RollbackEnviron(changed: Environ, history: Environ, sep: char) returns (rolled: Environ)
    ensures rolled == RolledBack(changed, history, sep)
    ensures rolled.Keys <= changed.Keys
  {
    rolled := map[];
    var pending := changed.Keys;
    while pending != {}
      invariant pending <= changed.Keys
      invariant rolled == RolledBackOn(changed, history, sep, changed.Keys - pending)
      decreases pending
    {
      var key :| key in pending;
      var changedPaths := Split(changed[key], sep);
      var historyPaths := Split(if key in history then history[key] else "", sep);
      var rollPaths := RollbackPaths(changedPaths, historyPaths);
      assert rollPaths == RolledSegments(changed, history, key, sep);
      ghost var entry := RollbackEntry(changed, history, sep);
      assert entry(key) == if rollPaths != [] then Some(Join(rollPaths, sep)) else None;
      EntriesStep(changed.Keys - pending, entry, key);
      if rollPaths != [] {
        rolled := rolled[key := Join(rollPaths, sep)];
      }
      MoveKey(changed.Keys, pending, key);
      pending := pending - {key};
    }
    assert changed.Keys - pending == changed.Keys;
  }

  /** A variable is rolled back exactly when some segment of its value is
      missing from the history's segments. */
  lemma RolledBackKeys(changed: Environ, history: Environ, sep: char, key: string)
    ensures key in RolledBack(changed, history, sep) <==>
      key in changed && exists seg :: seg in Split(changed[key], sep) && seg !in HistoryPaths(history, key, sep)
  {
    if key in changed {
      var segs := Split(changed[key], sep);
      var hist := HistoryPaths(history, key, sep);
      if exists seg :: seg in segs && seg !in hist {
        var seg :| seg in segs && seg !in hist;
        KeepAbsentMembers(segs, hist, seg);
      }
      if RolledSegments(changed, history, key, sep) != [] {
        var seg := RolledSegments(changed, history, key, sep)[0];
        KeepAbsentMembers(segs, hist, seg);
      }
    }
  }

  /** A rolled-back value splits into exactly the surviving segments: every
      segment of the launcher's value absent from the history, in order,
      repetitions kept, and nothing else. */
  lemma RolledBackValue(changed: Environ, history: Environ, sep: char, key: string)
    requires key in RolledBack(changed, history, sep)
    ensures Split(RolledBack(changed, history, sep)[key], sep) == RolledSegments(changed, history, key, sep)
    ensures forall x :: x in Split(RolledBack(changed, history, sep)[key], sep) <==>
      x in Split(changed[key], sep) && x !in HistoryPaths(history, key, sep)
  {
    var segs := Split(changed[key], sep);
    var hist := HistoryPaths(history, key, sep);
    var kept := RolledSegments(changed, history, key, sep);
    forall i | 0 <= i < |kept| ensures sep !in kept[i] {
      KeepAbsentMembers(segs, hist, kept[i]);
    }
    SplitJoin(kept, sep);
    forall x ensures x in kept <==> x in segs && x !in hist {
      KeepAbsentMembers(segs, hist, x);
    }
  }

  /** A variable the history does not have at all is kept whole, provided
      it has no empty segment. */
  lemma RolledBackKeepsNewVariable(changed: Environ, history: Environ, sep: char, key: string)
    requires key in changed && key !in history
    requires "" !in Split(changed[key], sep)
    ensures key in RolledBack(changed, history, sep)
    ensures RolledBack(changed, history, sep)[key] == changed[key]
  {
    var segs := Split(changed[key], sep);
    assert HistoryPaths(history, key, sep) == [""];
    KeepAbsentNone(segs, [""]);
    JoinSplit(changed[key], sep);
  }

  /** `inherit_parent_environment` as the configuration reports it, true
      when the setting is absent. */
  predicate InheritsParent(setting: Option<bool>)
  {
    setting.None? || setting.value
  }

  /** The native environment: the shell's own when the parent environment
      is not inherited; nothing when no resolved context file is set; the
      rolled-back environment otherwise. */
  method ResolveNativeEnviron(
    inheritSetting: Option<bool>, shellEnviron: Environ, rxtFile: Option<string>,
    changed: Environ, history: Environ, sep: char)
    returns (r: Option<Environ>)
    ensures !InheritsParent(inheritSetting) ==> r == Some(shellEnviron)
    ensures InheritsParent(inheritSetting) && !Truthy(rxtFile) ==> r == None
    ensures InheritsParent(inheritSetting) && Truthy(rxtFile) ==>
      r.Some? && r.value.Keys <= changed.Keys && r.value == RolledBack(changed, history, sep)
  {
    if !InheritsParent(inheritSetting) {
      return Some(shellEnviron);
    }
    if !Truthy(rxtFile) {
      return None;
    }
    var rolled := RollbackEnviron(changed, history, sep);
    return Some(rolled);
  }
}
