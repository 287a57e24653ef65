/** The launcher's resources: file paths under its `resources` directory,
    colour palettes for its stylesheet, and a cache of the pixmaps it
    loads. The GUI toolkit's pixmap is an opaque object built from a file
    path; `os.path.normpath` is a library call and is passed in. */
module Resources {
  import opened Text

  // ---------------------------------------------------------------------
  // Paths

  /** POSIX `os.path.join(a, b)`: an absolute `b` replaces `a`, otherwise
      a `/` is inserted unless `a` is empty or already ends with one. */
  function PathJoin(a: string, b: string): string
  {
    if b != [] && b[0] == '/' then b
    else if a == [] || a[|a| - 1] == '/' then a + b
    else a + "/" + b
  }

  /** `os.path.join(base, *parts)`. */
  function PathJoinAll(base: string, parts: seq<string>): string
    decreases |parts|
  {
    if parts == [] then base
    else PathJoinAll(PathJoin(base, parts[0]), parts[1..])
  }

  /** The path of a resource file: joined under `<dirname>/resources`,
      normalised, and with every backslash turned into a forward slash. */
  function Find(dirname: string, paths: seq<string>, normpath: string -> string): (r: string)
    ensures '\\' !in r
    ensures var normal := normpath(PathJoinAll(dirname, ["resources"] + paths));
      && |r| == |normal|
      && (forall i :: 0 <= i < |r| && normal[i] != '\\' ==> r[i] == normal[i])
      && (forall i :: 0 <= i < |r| && normal[i] == '\\' ==> r[i] == '/')
  {
    ReplaceChar(normpath(PathJoinAll(dirname, ["resources"] + paths)), '\\', '/')
  }

  /** Forward-slash paths are left as they are: finding a resource twice
      over changes nothing more. */
  lemma ReplaceBackslashesIdempotent(s: string)
    ensures ReplaceChar(ReplaceChar(s, '\\', '/'), '\\', '/') == ReplaceChar(s, '\\', '/')
  {
    var once := ReplaceChar(s, '\\', '/');
    var twice := ReplaceChar(once, '\\', '/');
    assert |twice| == |once|;
    forall i | 0 <= i < |once| ensures twice[i] == once[i] {
      assert once[i] in once;
    }
  }

  /** The resource root written into every palette: `<dirname>/resources`,
      joined but not normalised, with every backslash turned into a forward
      slash. */
  function ResourceRoot(dirname: string): (r: string)
    ensures '\\' !in r
    ensures var joined := PathJoin(dirname, "resources");
      && |r| == |joined|
      && (forall i :: 0 <= i < |r| && joined[i] != '\\' ==> r[i] == joined[i])
      && (forall i :: 0 <= i < |r| && joined[i] == '\\' ==> r[i] == '/')
  {
    ReplaceChar(PathJoin(dirname, "resources"), '\\', '/')
  }

  /** For a directory written with forward slashes only, the resource root
      is that directory followed by `/resources`. */
  lemma {:induction false} ResourceRootUnderDirname(dirname: string)
    requires dirname != [] && dirname[|dirname| - 1] != '/'
    requires '\\' !in dirname
    ensures ResourceRoot(dirname) == dirname + "/resources"
  {
    var joined := dirname + "/resources";
    assert PathJoin(dirname, "resources") == joined;
    forall i | 0 <= i < |joined| ensures joined[i] != '\\' {
      if i < |dirname| {
        assert joined[i] == dirname[i];
      }
    }
  }

  // ---------------------------------------------------------------------
  // Palettes

  /** A palette: colour role to colour. */
  type Palette = map<string, string>

  /** The two palettes the launcher ships with. */
  function BuiltinPalettes(): map<string, Palette>
  {
    map[
      "dark" := map[
        "brightest" := "#403E3D",
        "bright" := "#383635",
        "base" := "#2E2C2C",
        "dim" := "#21201F",
        "dimmest" := "#141413",
        "highlight" := "#69D6C2",
        "highlighted" := "#111111",
        "active" := "silver",
        "inactive" := "dimGray"],
      "light" := map[
        "brightest" := "#E9EAE6",
        "bright" := "#DBDFDE",
        "base" := "#D7D8D2",
        "dim" := "#B3BABD",
        "dimmest" := "#AEAEAF",
        "highlight" := "#69D6C2",
        "highlighted" := "#111111",
        "active" := "black",
        "inactive" := "darkSlateGray"]
    ]
  }

  /** Both built-in palettes define the same colour roles, so the
      stylesheet can be filled in from either. */
  lemma BuiltinPalettesShareRoles()
    ensures BuiltinPalettes().Keys == {"dark", "light"}
    ensures BuiltinPalettes()["dark"].Keys == BuiltinPalettes()["light"].Keys
    ensures "res" !in BuiltinPalettes()["dark"]
  {
  }

  /** The built-in palettes updated with the user's palettes (an empty
      user setting leaves them alone): a user palette replaces the whole
      built-in palette of the same name, and every other built-in stays. */
  function LoadPalettes(user: map<string, Palette>): (r: map<string, Palette>)
    ensures r.Keys == {"dark", "light"} + user.Keys
    ensures forall name :: name in user ==> r[name] == user[name]
    ensures forall name :: name in BuiltinPalettes() && name !in user ==> r[name] == BuiltinPalettes()[name]
    ensures user == map[] ==> r == BuiltinPalettes()
  {
    var palettes := BuiltinPalettes();
    if user != map[] then palettes + user else palettes
  }

  /** Writes the resource root under `res` into every palette, one palette
      at a time. */
  method InjectResourceRoot(palettes: map<string, Palette>, root: string) returns (r: map<string, Palette>)
    ensures r.Keys == palettes.Keys
    ensures forall name :: name in r ==> r[name].Keys == palettes[name].Keys + {"res"}
    ensures forall name :: name in r ==> r[name]["res"] == root
    ensures forall name, role :: name in r && role in palettes[name] && role != "res" ==>
      r[name][role] == palettes[name][role]
  {
    r := palettes;
    var pending := palettes.Keys;
    while pending != {}
      invariant pending <= palettes.Keys
      invariant r.Keys == palettes.Keys
      invariant forall name :: name in pending ==> r[name] == palettes[name]
      invariant forall name :: name in r && name !in pending ==> r[name] == palettes[name]["res" := root]
      decreases pending
    {
      var name :| name in pending;
      r := r[name := r[name]["res" := root]];
      pending := pending - {name};
    }
  }

  datatype StyleError = KeyError(name: string)

  /** The palette the stylesheet is filled in with: the loaded palettes
      with the resource root injected, looked up by name. An unknown name
      is a KeyError. */
  method LoadStyle(user: map<string, Palette>, dirname: string, paletteName: string)
    returns (r: Result<Palette, StyleError>)
    ensures r.Err? <==> paletteName !in {"dark", "light"} + user.Keys
    ensures r.Err? ==> r.error == KeyError(paletteName)
    ensures r.Ok? ==> var chosen := LoadPalettes(user)[paletteName];
      && r.value.Keys == chosen.Keys + {"res"}
      && r.value["res"] == ResourceRoot(dirname)
      && forall role :: role in chosen && role != "res" ==> r.value[role] == chosen[role]
  {
    var palettes := LoadPalettes(user);
    palettes := InjectResourceRoot(palettes, ResourceRoot(dirname));
    if paletteName !in palettes {
      return Err(KeyError(paletteName));
    }
    return Ok(palettes[paletteName]);
  }

  // ---------------------------------------------------------------------
  // Pixmaps

  /** The toolkit's pixmap: an object built from an image file. */
  class Pixmap {
    const source: string

    constructor (source: string)
      ensures this.source == source
    {
      this.source := source;
    }
  }

  datatype PixmapError = IndexError

  /** The memo table of loaded pixmaps, keyed by the path parts asked for. */
  class PixmapCache {
    var cache: map<seq<string>, Pixmap>
    const dirname: string
    const normpath: string -> string

    /** Every cached pixmap was built from the resource its key names. */
    ghost predicate Valid()
      reads this
    {
      forall paths :: paths in cache ==> paths != [] && cache[paths].source == Find(dirname, paths, normpath)
    }

    constructor (dirname: string, normpath: string -> string)
      ensures Valid() && cache == map[]
      ensures this.dirname == dirname && this.normpath == normpath
    {
      this.dirname := dirname;
      this.normpath := normpath;
      cache := map[];
    }

    /** The pixmap for a resource. No path parts is an IndexError; a hit
        returns the cached object and leaves the cache alone; a miss builds
        one new pixmap from the resource's path and adds exactly that entry. */
    method Get(paths: seq<string>) returns (r: Result<Pixmap, PixmapError>)
      requires Valid()
      modifies this
      ensures Valid()
      ensures paths == [] ==> r == Err(IndexError) && cache == old(cache)
      ensures paths != [] && paths in old(cache) ==> r == Ok(old(cache)[paths]) && cache == old(cache)
      ensures paths != [] && paths !in old(cache) ==>
        r.Ok? && fresh(r.value) && cache == old(cache)[paths := r.value]
      ensures r.Ok? ==> r.value.source == Find(dirname, paths, normpath)
    {
      if paths == [] {
        return Err(IndexError);
      }
      if paths in cache {
        return Ok(cache[paths]);
      }
      var pixmap := new Pixmap(Find(dirname, paths, normpath));
      cache := cache[paths := pixmap];
      return Ok(pixmap);
    }
  }
}
