/** The launcher's configuration module, `allzparkconfig`, as a map from
    attribute names to values that start-up updates in place: backup
    copies under `_`-prefixed names, the user's configuration laid over
    it, and the rename of "project" settings to "profile" settings.
    `dir()` of the module is passed in as `names`; reading and running
    the user's configuration file is I/O, so its outcome is an input. */
module CliConfig {
  import opened Text

  /** Names Python keeps for the module's own use, such as `__file__`. */
  predicate IsDunder(name: string)
  {
    |name| >= 2 && name[..2] == "__"
  }

  /** Every name is listed at most once. */
  predicate Distinct(names: seq<string>)
  {
    forall i, j :: 0 <= i < j < |names| ==> names[i] != names[j]
  }

  /** `names` lists every attribute exactly once, as `dir()` does. */
  predicate IsListing<V>(names: seq<string>, attrs: map<string, V>)
  {
    && Distinct(names)
    && (forall i :: 0 <= i < |names| ==> names[i] in attrs)
    && (forall k :: k in attrs ==> k in names)
  }

  lemma PrefixInjective(a: string, b: string)
    requires "_" + a == "_" + b
    ensures a == b
  {
    assert a == ("_" + a)[1..] && b == ("_" + b)[1..];
  }

  // ---------------------------------------------------------------------
  // The user configuration overlay

  /** The configuration after the user's module is laid over it: every
      attribute the configuration already has, is not a dunder name and
      the user's module defines takes the user's value; nothing else
      changes and no attribute is added. */
  function Overlay<V>(attrs: map<string, V>, user: map<string, V>): (r: map<string, V>)
    ensures r.Keys == attrs.Keys
    ensures forall k :: k in r && !IsDunder(k) && k in user ==> r[k] == user[k]
    ensures forall k :: k in r && (IsDunder(k) || k !in user) ==> r[k] == attrs[k]
  {
    map k | k in attrs :: if !IsDunder(k) && k in user then user[k] else attrs[k]
  }

  /** Loading the same user configuration twice changes nothing more. */
  lemma OverlayIdempotent<V>(attrs: map<string, V>, user: map<string, V>)
    ensures Overlay(Overlay(attrs, user), user) == Overlay(attrs, user)
  {
  }

  /** The exception raised while opening, reading or running the user's
      configuration file, told apart by its type as the handlers do: an
      `IOError`, wherever it came from (opening the file or the script
      itself), or any other `Exception`, a decoding error while reading
      the file included. */
  datatype LoadFailure = RaisedIOError | RaisedOtherException

  /** What loading reports: an `IOError` is raised again, any other
      exception becomes a UserError. */
  datatype ConfigError = IOError | UserError(message: string)

  // ---------------------------------------------------------------------
  // `_`-prefixed backups

  /** The configuration after backing up the first members of `names`, one
      at a time: a non-dunder member `m` is copied, with its value at that
      moment, to `_m`. */
  function Patched<V>(attrs: map<string, V>, names: seq<string>): (r: map<string, V>)
    requires AllListed(names, attrs)
    ensures attrs.Keys <= r.Keys
    decreases |names|
  {
    if names == [] then attrs
    else
      var before := Patched(attrs, names[..|names| - 1]);
      var m := names[|names| - 1];
      if IsDunder(m) then before else before["_" + m := before[m]]
  }

  /** Names that receive a backup copy from the first `n` members. */
  function BackupNames(names: seq<string>, n: nat): set<string>
    requires n <= |names|
  {
    set j | 0 <= j < n && !IsDunder(names[j]) :: "_" + names[j]
  }

  /** Member `j` is itself the backup name of an earlier non-dunder member,
      so its value was overwritten before its own turn came. */
  predicate Shadowed(names: seq<string>, j: nat)
    requires j < |names|
  {
    exists i :: 0 <= i < j && !IsDunder(names[i]) && names[j] == "_" + names[i]
  }

  /** Every member listed is an attribute. */
  predicate AllListed<V>(names: seq<string>, attrs: map<string, V>)
  {
    forall i :: 0 <= i < |names| ==> names[i] in attrs
  }

  /** After the first `n` members: the attributes are the original ones
      plus the backup names. */
  predicate KeysUpTo<V>(attrs: map<string, V>, names: seq<string>, n: nat, r: map<string, V>)
    requires n <= |names|
  {
    r.Keys == attrs.Keys + BackupNames(names, n)
  }

  /** After the first `n` members: an attribute that is no backup name
      keeps its original value. */
  ghost predicate UnchangedUpTo<V>(attrs: map<string, V>, names: seq<string>, n: nat, r: map<string, V>)
    requires n <= |names| && KeysUpTo(attrs, names, n, r)
  {
    forall k :: k in attrs && k !in BackupNames(names, n) ==> r[k] == attrs[k]
  }

  /** After the first `n` members: each backed-up member that no earlier
      backup overwrote has its original value under `_m`. */
  ghost predicate BackedUpTo<V>(attrs: map<string, V>, names: seq<string>, n: nat, r: map<string, V>)
    requires n <= |names| && AllListed(names, attrs) && KeysUpTo(attrs, names, n, r)
  {
    forall j :: 0 <= j < n && !IsDunder(names[j]) && !Shadowed(names, j) ==>
      r["_" + names[j]] == attrs[names[j]]
  }

  /** After the first `n` members: a member that is the backup name of an
      earlier member `m` has, under its own backup name, the original value
      of `m`. */
  ghost predicate ShadowedUpTo<V>(attrs: map<string, V>, names: seq<string>, n: nat, r: map<string, V>)
    requires n <= |names| && AllListed(names, attrs) && KeysUpTo(attrs, names, n, r)
  {
    forall i, j :: 0 <= i < j < n && !IsDunder(names[i]) && !IsDunder(names[j]) && names[j] == "_" + names[i] ==>
      r["_" + names[j]] == attrs[names[i]]
  }

  ghost predicate PatchedUpTo<V>(attrs: map<string, V>, names: seq<string>, n: nat, r: map<string, V>)
    requires n <= |names| && AllListed(names, attrs)
  {
    && KeysUpTo(attrs, names, n, r)
    && UnchangedUpTo(attrs, names, n, r)
    && BackedUpTo(attrs, names, n, r)
    && ShadowedUpTo(attrs, names, n, r)
  }

  /** One more member: its backup is written with its current value. */
  lemma PatchedUnfold<V>(attrs: map<string, V>, names: seq<string>, n: nat)
    requires AllListed(names, attrs) && n < |names|
    ensures var before := Patched(attrs, names[..n]);
      Patched(attrs, names[..n + 1]) ==
        if IsDunder(names[n]) then before else before["_" + names[n] := before[names[n]]]
  {
    assert names[..n + 1][..n] == names[..n];
  }

  lemma BackupNamesStep(names: seq<string>, n: nat)
    requires n < |names|
    ensures BackupNames(names, n + 1) ==
      if IsDunder(names[n]) then BackupNames(names, n) else BackupNames(names, n) + {"_" + names[n]}
  {
    if !IsDunder(names[n]) {
      assert "_" + names[n] in BackupNames(names, n + 1);
    }
  }

  /** Earlier backup names differ from the backup name of member `n`. */
  lemma BackupNamesFresh(names: seq<string>, n: nat)
    requires Distinct(names) && n < |names|
    ensures forall j :: 0 <= j < n ==> "_" + names[j] != "_" + names[n]
  {
    forall j | 0 <= j < n ensures "_" + names[j] != "_" + names[n] {
      if "_" + names[j] == "_" + names[n] { PrefixInjective(names[j], names[n]); }
    }
  }

  /** A member that shadows another cannot itself be shadowed: it would
      then start with `__`. */
  lemma ShadowerNotShadowed(names: seq<string>, i: nat, j: nat)
    requires i < j < |names|
    requires !IsDunder(names[j]) && names[j] == "_" + names[i]
    ensures !Shadowed(names, i)
  {
  }

  lemma StepUnchanged<V>(attrs: map<string, V>, names: seq<string>, n: nat)
    requires Distinct(names) && AllListed(names, attrs) && n < |names|
    requires PatchedUpTo(attrs, names, n, Patched(attrs, names[..n]))
    ensures KeysUpTo(attrs, names, n + 1, Patched(attrs, names[..n + 1]))
    ensures UnchangedUpTo(attrs, names, n + 1, Patched(attrs, names[..n + 1]))
  {
    PatchedUnfold(attrs, names, n);
    BackupNamesStep(names, n);
  }

  lemma StepBackedUp<V>(attrs: map<string, V>, names: seq<string>, n: nat)
    requires Distinct(names) && AllListed(names, attrs) && n < |names|
    requires PatchedUpTo(attrs, names, n, Patched(attrs, names[..n]))
    requires KeysUpTo(attrs, names, n + 1, Patched(attrs, names[..n + 1]))
    ensures BackedUpTo(attrs, names, n + 1, Patched(attrs, names[..n + 1]))
  {
    var before := Patched(attrs, names[..n]);
    var r := Patched(attrs, names[..n + 1]);
    var m := names[n];
    PatchedUnfold(attrs, names, n);
    if !IsDunder(m) {
      BackupNamesFresh(names, n);
      if !Shadowed(names, n) {
        assert m !in BackupNames(names, n);
        assert r["_" + m] == attrs[m];
      }
    }
  }

  lemma StepShadowed<V>(attrs: map<string, V>, names: seq<string>, n: nat)
    requires Distinct(names) && AllListed(names, attrs) && n < |names|
    requires PatchedUpTo(attrs, names, n, Patched(attrs, names[..n]))
    requires KeysUpTo(attrs, names, n + 1, Patched(attrs, names[..n + 1]))
    ensures ShadowedUpTo(attrs, names, n + 1, Patched(attrs, names[..n + 1]))
  {
    var before := Patched(attrs, names[..n]);
    var r := Patched(attrs, names[..n + 1]);
    var m := names[n];
    PatchedUnfold(attrs, names, n);
    if !IsDunder(m) {
      BackupNamesFresh(names, n);
      forall i | 0 <= i < n && !IsDunder(names[i]) && m == "_" + names[i]
        ensures r["_" + m] == attrs[names[i]]
      {
        ShadowerNotShadowed(names, i, n);
        assert before[m] == attrs[names[i]];
      }
    }
  }

  lemma PatchedStep<V>(attrs: map<string, V>, names: seq<string>, n: nat)
    requires Distinct(names) && AllListed(names, attrs)
    requires n < |names|
    requires PatchedUpTo(attrs, names, n, Patched(attrs, names[..n]))
    ensures PatchedUpTo(attrs, names, n + 1, Patched(attrs, names[..n + 1]))
  {
    StepUnchanged(attrs, names, n);
    StepBackedUp(attrs, names, n);
    StepShadowed(attrs, names, n);
  }

  /** After the backups, `_m` holds the value `m` had before, for every
      non-dunder member `m` that is not itself the backup name of a member
      listed before it; such a member's `_m` receives the value of that
      earlier member instead. Every attribute that is not a backup name
      keeps its value. */
  lemma {:induction false} PatchedBackups<V>(attrs: map<string, V>, names: seq<string>, n: nat)
    requires Distinct(names) && AllListed(names, attrs)
    requires n <= |names|
    ensures PatchedUpTo(attrs, names, n, Patched(attrs, names[..n]))
  {
    if n == 0 {
      assert names[..0] == [];
      assert BackupNames(names, 0) == {};
    } else {
      PatchedBackups(attrs, names, n - 1);
      PatchedStep(attrs, names, n - 1);
    }
  }

  /** When no member's backup name is itself a member, every non-dunder
      member `m` ends up with `_m` equal to the value `m` had before. */
  lemma BackupsKeepOriginals<V>(attrs: map<string, V>, names: seq<string>)
    requires IsListing(names, attrs)
    requires forall i :: 0 <= i < |names| && !IsDunder(names[i]) ==> "_" + names[i] !in attrs
    ensures forall m :: m in attrs && !IsDunder(m) ==>
      "_" + m in Patched(attrs, names) && Patched(attrs, names)["_" + m] == attrs[m]
  {
    PatchedBackups(attrs, names, |names|);
    assert names[..|names|] == names;
    forall m | m in attrs && !IsDunder(m)
      ensures "_" + m in Patched(attrs, names) && Patched(attrs, names)["_" + m] == attrs[m]
    {
      var j :| 0 <= j < |names| && names[j] == m;
      assert "_" + m in BackupNames(names, |names|);
      assert !Shadowed(names, j);
    }
  }

  /** `dir()` lists `X` before `_X` (upper-case letters sort before `_`), so
      `X`'s backup overwrites `_X` before `_X` is itself backed up: `__X`
      receives the original value of `X`, not that of `_X`. */
  lemma ShadowedBackupExample()
    ensures var attrs := map["X" := 1, "_X" := 2];
      var r := Patched(attrs, ["X", "_X"]);
      "__X" in r && r["__X"] == 1 && attrs["_X"] == 2
  {
    var attrs := map["X" := 1, "_X" := 2];
    var names := ["X", "_X"];
    assert names[..1] == ["X"] && names[..1][..0] == [];
    assert "X"[..1] == "X" && "_X"[..2] == "_X";
    assert !IsDunder("X") && !IsDunder("_X");
    var once := Patched(attrs, names[..1]);
    assert "_" + "X" == "_X";
    assert Patched(attrs, names[..1][..0]) == attrs;
    assert once == attrs["_X" := 1];
    assert "_" + "_X" == "__X";
    assert Patched(attrs, names) == once["__X" := once["_X"]];
  }

  // ---------------------------------------------------------------------
  // The "project" to "profile" rename

  /** The configuration after the rename shim: `profiles` takes the value
      of `projects` and `startup_profile` that of `startup_project`, each
      only when the old name is present; all else is unchanged. */
  function Renamed<V>(attrs: map<string, V>): (r: map<string, V>)
    ensures "projects" in attrs ==> "profiles" in r && r["profiles"] == attrs["projects"]
    ensures "startup_project" in attrs ==> "startup_profile" in r && r["startup_profile"] == attrs["startup_project"]
    ensures forall k ::
      (k in attrs && !(k == "profiles" && "projects" in attrs)
       && !(k == "startup_profile" && "startup_project" in attrs)) ==> k in r && r[k] == attrs[k]
    ensures forall k :: k in r ==>
      (k in attrs || (k == "profiles" && "projects" in attrs)
       || (k == "startup_profile" && "startup_project" in attrs))
  {
    var withProfiles := if "projects" in attrs then attrs["profiles" := attrs["projects"]] else attrs;
    if "startup_project" in withProfiles then
      withProfiles["startup_profile" := withProfiles["startup_project"]]
    else withProfiles
  }

  /** Running the shim a second time changes nothing. */
  lemma RenamedIdempotent<V>(attrs: map<string, V>)
    ensures Renamed(Renamed(attrs)) == Renamed(attrs)
  {
    var once := Renamed(attrs);
    var twice := Renamed(once);
    assert twice.Keys == once.Keys;
    forall k | k in once ensures twice[k] == once[k] {
      if k == "profiles" && "projects" in once {
        assert once["projects"] == attrs["projects"];
      }
    }
  }

  /** The `allzparkconfig` module. */
  class ConfigModule<V> {
    var attrs: map<string, V>

    constructor (attrs: map<string, V>)
      ensures this.attrs == attrs
    {
      this.attrs := attrs;
    }

    /** Lays the user's configuration module over this one, attribute by
        attribute in `dir()` order. When opening, reading or running the
        file raised an exception, every attribute stays as it was: an
        `IOError` is raised again and any other exception is reported as a
        UserError. */
    method LoadUserConfig(names: seq<string>, loaded: Result<map<string, V>, LoadFailure>)
      returns (err: Option<ConfigError>)
      requires IsListing(names, attrs)
      modifies this
      ensures loaded == Err(RaisedIOError) ==> err == Some(IOError) && attrs == old(attrs)
      ensures loaded == Err(RaisedOtherException) ==>
        err == Some(UserError("Better double-check your user config")) && attrs == old(attrs)
      ensures loaded.Ok? ==> err == None && attrs == Overlay(old(attrs), loaded.value)
    {
      if loaded.Err? {
        if loaded.error == RaisedIOError {
          return Some(IOError);
        }
        return Some(UserError("Better double-check your user config"));
      }
      var user := loaded.value;
      for i := 0 to |names|
        invariant attrs.Keys == old(attrs).Keys
        invariant forall k :: k in attrs ==>
          attrs[k] == if k in names[..i] && !IsDunder(k) && k in user then user[k] else old(attrs)[k]
      {
        var key := names[i];
        if !IsDunder(key) && key in user {
          attrs := attrs[key := user[key]];
        }
      }
      assert names[..|names|] == names;
      return None;
    }

    /** Copies every non-dunder member `m` to `_m`, in `dir()` order. */
    method PatchBackups(names: seq<string>)
      requires IsListing(names, attrs)
      modifies this
      ensures attrs == Patched(old(attrs), names)
    {
      for i := 0 to |names|
        invariant attrs == Patched(old(attrs), names[..i])
      {
        var member := names[i];
        assert names[..i + 1][..i] == names[..i];
        if !IsDunder(member) {
          attrs := attrs["_" + member := attrs[member]];
        }
      }
      assert names[..|names|] == names;
    }

    /** The rename shim from "project" settings to "profile" settings. */
    method BackwardsCompatibility()
      modifies this
      ensures attrs == Renamed(old(attrs))
    {
      if "projects" in attrs {
        attrs := attrs["profiles" := attrs["projects"]];
      }
      if "startup_project" in attrs {
        attrs := attrs["startup_profile" := attrs["startup_project"]];
      }
    }
  }
}
