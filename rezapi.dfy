/** The launcher's own layer over the Rez package manager: application
    request keys, application records, and picking packages out of a
    search. Rez itself is not modelled; a package is an abstract record
    and a package search is a function from its arguments to the
    sequence of packages it yields. */
module RezApi {
  import opened Text

  /** A package version: its numeric tokens, compared lexicographically,
      a version that is a proper prefix of another being the lower. */
  datatype Version = Version(tokens: seq<nat>)

  predicate TokensLe(a: seq<nat>, b: seq<nat>)
    decreases |a|
  {
    a == [] || (b != [] && (a[0] < b[0] || (a[0] == b[0] && TokensLe(a[1..], b[1..]))))
  }

  predicate VersionLe(a: Version, b: Version)
  {
    TokensLe(a.tokens, b.tokens)
  }

  lemma {:induction false} TokensLeTotal(a: seq<nat>, b: seq<nat>)
    ensures TokensLe(a, b) || TokensLe(b, a)
    decreases |a|
  {
    if a != [] && b != [] && a[0] == b[0] {
      TokensLeTotal(a[1..], b[1..]);
    }
  }

  lemma {:induction false} TokensLeTransitive(a: seq<nat>, b: seq<nat>, c: seq<nat>)
    requires TokensLe(a, b) && TokensLe(b, c)
    ensures TokensLe(a, c)
    decreases |a|
  {
    if a != [] && a[0] == b[0] && b[0] == c[0] {
      TokensLeTransitive(a[1..], b[1..], c[1..]);
    }
  }

  lemma {:induction false} TokensLeAntisymmetric(a: seq<nat>, b: seq<nat>)
    requires TokensLe(a, b) && TokensLe(b, a)
    ensures a == b
    decreases |a|
  {
    if a != [] {
      TokensLeAntisymmetric(a[1..], b[1..]);
      assert a == [a[0]] + a[1..] && b == [b[0]] + b[1..];
    }
  }

  /** Versions are totally ordered: any two compare one way or the other. */
  lemma VersionLeTotal(a: Version, b: Version)
    ensures VersionLe(a, b) || VersionLe(b, a)
  {
    TokensLeTotal(a.tokens, b.tokens);
  }

  lemma VersionLeTransitive(a: Version, b: Version, c: Version)
    requires VersionLe(a, b) && VersionLe(b, c)
    ensures VersionLe(a, c)
  {
    TokensLeTransitive(a.tokens, b.tokens, c.tokens);
  }

  /** Two versions that compare equal both ways are the same version. */
  lemma VersionLeAntisymmetric(a: Version, b: Version)
    requires VersionLe(a, b) && VersionLe(b, a)
    ensures a == b
  {
    TokensLeAntisymmetric(a.tokens, b.tokens);
  }

  /** The text of a version, its tokens joined by dots. */
  function VersionString(v: Version): (r: string)
    ensures ':' !in r
  {
    var words := seq(|v.tokens|, i requires 0 <= i < |v.tokens| => NatToString(v.tokens[i]));
    JoinHasNo(words, '.', ':');
    Join(words, '.')
  }

  lemma {:induction false} JoinHasNo(words: seq<string>, sep: char, c: char)
    requires c != sep
    requires forall i :: 0 <= i < |words| ==> c !in words[i]
    ensures c !in Join(words, sep)
    decreases |words|
  {
    if |words| > 1 {
      JoinHasNo(words[1..], sep, c);
    }
  }

  /** The package's `context`: set when the package was found in a suite. */
  datatype Context = Context(suiteContextName: Option<string>)

  /** A package as the launcher sees it; `tools` is absent when the package
      declares none. */
  datatype Package = Package(
    name: string,
    version: Version,
    tools: Option<seq<string>>,
    context: Option<Context>)

  /** `is_from_suite`, the value of `package.context and
      package.context.suite_context_name`: nothing without a context, the
      context's suite context name (possibly nothing or empty) otherwise. */
  function IsFromSuite(p: Package): (r: Option<string>)
    ensures r.Some? ==> p.context.Some? && r == p.context.value.suiteContextName
    ensures r.None? <==> p.context.None? || p.context.value.suiteContextName.None?
  {
    if p.context.Some? then p.context.value.suiteContextName else None
  }

  /** The package counts as a suite package: `is_from_suite` is truthy. */
  predicate InSuite(p: Package)
  {
    Truthy(IsFromSuite(p))
  }

  /** Only a package with a context that names a non-empty suite context
      counts as a suite package. */
  lemma InSuiteNeedsSuiteName(p: Package)
    ensures InSuite(p) <==>
      p.context.Some? && p.context.value.suiteContextName.Some? && p.context.value.suiteContextName.value != ""
  {
  }

  /** A suite tool: the alias it is exposed under and its context. */
  datatype ToolEntry = ToolEntry(toolAlias: string, contextName: string)

  datatype RezError =
    | PackageNotFound(message: string)
    | StopIteration
    | ValueError

  /** The key that identifies an application uniquely: `name==version`,
      prefixed by `alias::context::` for a suite tool. */
  function UniRequestKey(p: Package, entry: Option<ToolEntry>): (r: string)
    ensures var plain := p.name + "==" + VersionString(p.version);
      && |plain| <= |r| && r[|r| - |plain|..] == plain
      && (entry.None? ==> r == plain)
      && (entry.Some? ==> r[..|r| - |plain|] == entry.value.toolAlias + "::" + entry.value.contextName + "::")
  {
    var appRequest := p.name + "==" + VersionString(p.version);
    if entry.Some? then
      entry.value.toolAlias + "::" + entry.value.contextName + "::" + appRequest
    else appRequest
  }

  /** An application: a package together with its tools, the value
      `is_from_suite` gave for it (the suite context name, or nothing), and
      the request key it was made from. The fields are the record's
      getters. */
  datatype RezApp = RezApp(
    package: Package,
    tools: seq<string>,
    isSuiteTool: Option<string>,
    appRequest: string)

  /** Making an application record from a package and its request key. A
      suite package takes its single tool from the key's text before the
      first `::`, and a key without `::` fails to unpack (ValueError). Any
      other package offers its declared tools, or its own name when it
      declares none. */
  function NewRezApp(p: Package, appRequest: string): (r: Result<RezApp, RezError>)
    ensures r.Err? <==> InSuite(p) && !Contains(appRequest, "::")
    ensures r.Err? ==> r.error == ValueError
    ensures r.Ok? ==> r.value.package == p && r.value.appRequest == appRequest
    ensures r.Ok? ==> r.value.isSuiteTool == IsFromSuite(p) && r.value.tools != []
    ensures r.Ok? ==> (Truthy(r.value.isSuiteTool) <==> InSuite(p))
    ensures r.Ok? && InSuite(p) ==>
      var alias := r.value.tools[0];
      && |r.value.tools| == 1
      && |alias| <= |appRequest|
      && alias == appRequest[..|alias|]
      && OccursAt(appRequest, "::", |alias|)
      && forall i: nat :: i < |alias| ==> !OccursAt(appRequest, "::", i)
    ensures r.Ok? && !InSuite(p) ==>
      if p.tools.Some? && p.tools.value != [] then r.value.tools == p.tools.value
      else r.value.tools == [p.name]
  {
    var inSuite := IsFromSuite(p);
    if Truthy(inSuite) then
      match IndexOf(appRequest, "::")
      case None => Err(ValueError)
      case Some(k) => Ok(RezApp(p, [appRequest[..k]], inSuite, appRequest))
    else
      var tools := if p.tools.Some? && p.tools.value != [] then p.tools.value else [p.name];
      Ok(RezApp(p, tools, inSuite, appRequest))
  }

  /** An alias the key's first `::` cannot cut short: it holds no `::` and
      does not end in `:`. */
  predicate SafeAlias(alias: string)
  {
    !Contains(alias, "::") && (alias == [] || alias[|alias| - 1] != ':')
  }

  /** A suite tool's request key gives back the tool's alias as the
      application's only tool, and the key itself as its request. */
  lemma RequestKeyRoundTrip(p: Package, entry: ToolEntry)
    requires InSuite(p)
    requires SafeAlias(entry.toolAlias)
    ensures var key := UniRequestKey(p, Some(entry));
      NewRezApp(p, key) == Ok(RezApp(p, [entry.toolAlias], IsFromSuite(p), key))
  {
    var alias := entry.toolAlias;
    var key := UniRequestKey(p, Some(entry));
    var n := |alias|;
    assert key == alias + ("::" + entry.contextName + "::" + p.name + "==" + VersionString(p.version));
    assert key[..n] == alias;
    assert OccursAt(key, "::", n);
    forall i: nat | i < n
      ensures !OccursAt(key, "::", i)
    {
      if i + 1 < n {
        assert key[i..i + 2] == alias[i..i + 2];
        assert !OccursAt(alias, "::", i);
      } else {
        assert key[i] == alias[n - 1];
        assert key[i..i + 2][0] == key[i];
      }
    }
    var r := IndexOf(key, "::");
    assert r.Some?;
    assert r.value == n;
  }

  /** An alias ending in `:` does not survive the round trip: the key
      `a:::c::n==1` splits at its first `::`, after `a`. */
  lemma RoundTripLosesTrailingColon()
    ensures var p := Package("n", Version([1]), None, Some(Context(Some("s"))));
      var key := UniRequestKey(p, Some(ToolEntry("a:", "c")));
      NewRezApp(p, key).Ok? && NewRezApp(p, key).value.tools == ["a"]
  {
    var p := Package("n", Version([1]), None, Some(Context(Some("s"))));
    var key := UniRequestKey(p, Some(ToolEntry("a:", "c")));
    assert NatToString(1) == "1";
    var words := seq(1, i requires 0 <= i < 1 => NatToString([1][i]));
    assert words == ["1"];
    assert Join(words, '.') == "1";
    assert VersionString(p.version) == "1";
    assert key == "a:::c::n==1";
    assert key[0] == 'a' && key[0..2][0] == key[0];
    assert OccursAt(key, "::", 1) && !OccursAt(key, "::", 0);
    assert IndexOf(key, "::") == Some(1);
    assert InSuite(p) && key[..1] == "a";
    assert NewRezApp(p, key) == Ok(RezApp(p, ["a"], Some("s"), key));
  }

  /** A suite package keyed without a tool entry cannot be made into an
      application when its name holds no `:`. */
  lemma SuiteKeyNeedsToolEntry(p: Package)
    requires InSuite(p)
    requires ':' !in p.name
    ensures NewRezApp(p, UniRequestKey(p, None)) == Err(ValueError)
  {
    var key := UniRequestKey(p, None);
    assert ':' !in key;
    forall i: nat | i <= |key|
      ensures !OccursAt(key, "::", i)
    {
      if i + 2 <= |key| {
        assert key[i] in key;
        assert key[i..i + 2][0] == key[i];
      }
    }
  }

  /** A package search: package name, optional version range and optional
      repository paths to the packages found, in the order Rez yields them. */
  type Search = (string, Option<string>, Option<seq<string>>) -> seq<Package>

  /** Every version in `s` is at most the next one. */
  predicate SortedByVersion(s: seq<Package>)
  {
    forall i, j :: 0 <= i < j < |s| ==> VersionLe(s[i].version, s[j].version)
  }

  /** Places `p` after every package whose version is at most its own, so
      that packages of equal version keep their order. */
  function InsertByVersion(sorted: seq<Package>, p: Package): (r: seq<Package>)
    ensures multiset(r) == multiset(sorted) + multiset{p}
    ensures |r| == |sorted| + 1
  {
    if sorted == [] then [p]
    else
      var last := sorted[|sorted| - 1];
      if VersionLe(last.version, p.version) then sorted + [p]
      else
        assert sorted == sorted[..|sorted| - 1] + [last];
        InsertByVersion(sorted[..|sorted| - 1], p) + [last]
  }

  /** Python's stable `sorted(found, key=lambda pkg: pkg.version)`. */
  function SortByVersion(s: seq<Package>): (r: seq<Package>)
    ensures multiset(r) == multiset(s)
    ensures |r| == |s|
  {
    if s == [] then []
    else
      assert s == s[..|s| - 1] + [s[|s| - 1]];
      InsertByVersion(SortByVersion(s[..|s| - 1]), s[|s| - 1])
  }

  lemma {:induction false} InsertKeepsSorted(sorted: seq<Package>, p: Package)
    requires SortedByVersion(sorted)
    ensures SortedByVersion(InsertByVersion(sorted, p))
    decreases |sorted|
  {
    if sorted != [] {
      var last := sorted[|sorted| - 1];
      if VersionLe(last.version, p.version) {
        forall i | 0 <= i < |sorted| ensures VersionLe(sorted[i].version, p.version) {
          if i < |sorted| - 1 {
            VersionLeTransitive(sorted[i].version, last.version, p.version);
          }
        }
      } else {
        var init := sorted[..|sorted| - 1];
        InsertKeepsSorted(init, p);
        var u := InsertByVersion(init, p);
        VersionLeTotal(last.version, p.version);
        forall i | 0 <= i < |u| ensures VersionLe(u[i].version, last.version) {
          assert u[i] in multiset(u);
          if u[i] != p {
            assert u[i] in multiset(init);
            var j :| 0 <= j < |init| && init[j] == u[i];
            assert sorted[j] == u[i];
          }
        }
      }
    }
  }

  /** Sorting by version yields the packages in non-decreasing version order. */
  lemma {:induction false} SortIsSorted(s: seq<Package>)
    ensures SortedByVersion(SortByVersion(s))
    decreases |s|
  {
    if s != [] {
      SortIsSorted(s[..|s| - 1]);
      InsertKeepsSorted(SortByVersion(s[..|s| - 1]), s[|s| - 1]);
    }
  }

  /** The last package after inserting `p` is `p`, unless the sequence
      already ended in a strictly higher version. */
  lemma {:induction false} InsertLast(sorted: seq<Package>, p: Package)
    ensures var r := InsertByVersion(sorted, p);
      r[|r| - 1] == if sorted != [] && !VersionLe(sorted[|sorted| - 1].version, p.version)
                    then sorted[|sorted| - 1] else p
  {
  }

  /** The package `find_latest` picks is the last of the sorted search. */
  function Latest(found: seq<Package>): Package
    requires found != []
  {
    var sorted := SortByVersion(found);
    sorted[|sorted| - 1]
  }

  /** Searching one more package: it becomes the latest unless the
      latest so far has a strictly higher version. */
  lemma LatestStep(init: seq<Package>, p: Package)
    ensures Latest(init + [p]) ==
      if init != [] && !VersionLe(Latest(init).version, p.version) then Latest(init) else p
  {
    var found := init + [p];
    assert found[..|found| - 1] == init;
    assert SortByVersion(found) == InsertByVersion(SortByVersion(init), p);
    InsertLast(SortByVersion(init), p);
  }

  /** Among the packages of highest version, the one found last is the
      latest: its version is at least every other, and every package found
      after it has a strictly lower version. */
  lemma {:induction false} LatestIsLastOfHighest(found: seq<Package>)
    requires found != []
    ensures exists i :: 0 <= i < |found| && found[i] == Latest(found) && LastOfHighest(found, i)
    decreases |found|
  {
    var init := found[..|found| - 1];
    var p := found[|found| - 1];
    assert found == init + [p];
    LatestStep(init, p);
    if init == [] {
      VersionLeTotal(p.version, p.version);
      assert LastOfHighest(found, 0);
    } else {
      LatestIsLastOfHighest(init);
      var i :| 0 <= i < |init| && init[i] == Latest(init) && LastOfHighest(init, i);
      LastOfHighestStep(init, p, i);
    }
  }

  /** Index `i` holds a package of the highest version, and every package
      after it has a strictly lower version. */
  predicate LastOfHighest(found: seq<Package>, i: nat)
    requires i < |found|
  {
    && (forall j :: 0 <= j < |found| ==> VersionLe(found[j].version, found[i].version))
    && (forall j :: i < j < |found| ==> !VersionLe(found[i].version, found[j].version))
  }

  lemma LastOfHighestStep(init: seq<Package>, p: Package, i: nat)
    requires i < |init| && LastOfHighest(init, i)
    ensures VersionLe(init[i].version, p.version) ==> LastOfHighest(init + [p], |init|)
    ensures !VersionLe(init[i].version, p.version) ==> LastOfHighest(init + [p], i)
  {
    var found := init + [p];
    var top := init[i];
    if VersionLe(top.version, p.version) {
      forall j | 0 <= j < |found| ensures VersionLe(found[j].version, p.version) {
        if j < |init| {
          VersionLeTransitive(init[j].version, top.version, p.version);
        } else {
          VersionLeTotal(p.version, p.version);
        }
      }
    } else {
      VersionLeTotal(top.version, p.version);
    }
  }

  /** Rez's `find_latest`: search without the repository paths, sort by
      version and take the last package, or fail when the search is empty. */
  function FindLatest(find: Search, name: string, versionRange: Option<string>, paths: Option<seq<string>>)
    : (r: Result<Package, RezError>)
    ensures var found := find(name, versionRange, None);
      && (r.Err? <==> found == [])
      && (r.Err? ==> r.error == PackageNotFound("package family not found: " + name))
      && (r.Ok? ==> r.value in found)
      && (r.Ok? ==> forall q :: q in found ==> VersionLe(q.version, r.value.version))
      && (r.Ok? ==> exists i :: 0 <= i < |found| && found[i] == r.value && LastOfHighest(found, i))
  {
    var found := find(name, versionRange, None);
    if found == [] then Err(PackageNotFound("package family not found: " + name))
    else
      LatestIsLastOfHighest(found);
      Ok(Latest(found))
  }

  /** The `paths` argument of `find_latest` never reaches the search. */
  lemma FindLatestIgnoresPaths(find: Search, name: string, versionRange: Option<string>,
                               paths1: Option<seq<string>>, paths2: Option<seq<string>>)
    ensures FindLatest(find, name, versionRange, paths1) == FindLatest(find, name, versionRange, paths2)
  {
  }

  /** Rez's `find_one`: the first package the search yields, or
      StopIteration when it yields none. */
  function FindOne(find: Search, name: string, versionRange: Option<string>, paths: Option<seq<string>>)
    : (r: Result<Package, RezError>)
    ensures var found := find(name, versionRange, paths);
      && (r.Ok? <==> found != [])
      && (r.Ok? ==> r.value == found[0])
      && (r.Err? ==> r.error == StopIteration)
  {
    var found := find(name, versionRange, paths);
    if found == [] then Err(StopIteration) else Ok(found[0])
  }
}
