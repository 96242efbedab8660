/** The shared build helpers: package lists per project and build directories. */
module BuildUtils {
  import opened Lexicographic

  /** The Debian packages each build category needs. */
  const BuildDeps: map<string, seq<string>> := map[
    "base" := ["build-essential", "git", "pkg-config", "cmake", "wget", "curl", "v4l-utils"],
    "ffmpeg" := ["yasm", "nasm", "libdrm-dev", "libasound2-dev", "libopus-dev", "libfreetype6-dev",
      "libharfbuzz-dev", "libfontconfig1-dev", "libsrt-openssl-dev", "libssl-dev"],
    "mpp" := ["libdrm-dev"],
    "rga" := ["libdrm-dev", "meson", "ninja-build"]
  ]

  /** `category` is known to `deps` and lists `pkg`. */
  predicate ListedIn(deps: map<string, seq<string>>, category: string, pkg: string) {
    category in deps && pkg in deps[category]
  }

  /** `category` is a known build category that lists `pkg`. */
  predicate Lists(category: string, pkg: string) {
    ListedIn(BuildDeps, category, pkg)
  }

  /** The packages `deps` gives the known categories, in request order, repeats kept. */
  function Gathered(deps: map<string, seq<string>>, categories: seq<string>): seq<string> {
    if categories == [] then []
    else
      var c := categories[|categories| - 1];
      Gathered(deps, categories[..|categories| - 1]) + (if c in deps then deps[c] else [])
  }

  lemma {:induction false} GatheredMembers(deps: map<string, seq<string>>, categories: seq<string>, pkg: string)
    ensures pkg in Gathered(deps, categories) <==>
      exists i :: 0 <= i < |categories| && ListedIn(deps, categories[i], pkg)
  {
    if categories != [] {
      var init := categories[..|categories| - 1];
      var c := categories[|categories| - 1];
      GatheredMembers(deps, init, pkg);
      if exists i :: 0 <= i < |categories| && ListedIn(deps, categories[i], pkg) {
        var i :| 0 <= i < |categories| && ListedIn(deps, categories[i], pkg);
        if i < |init| {
          assert ListedIn(deps, init[i], pkg);
        }
      }
      forall i | 0 <= i < |init| && ListedIn(deps, init[i], pkg) ensures ListedIn(deps, categories[i], pkg) {
        assert init[i] == categories[i];
      }
    }
  }

  /**
   * `get_build_dependencies`: the packages of every requested category that is
   * known, each once, in ascending order.
   */
  function BuildDependencies(categories: seq<string>): (r: seq<string>)
    ensures StrictlyAscending(r)
    ensures forall pkg :: pkg in r <==> exists i :: 0 <= i < |categories| && Lists(categories[i], pkg)
  {
    var all := Gathered(BuildDeps, categories);
    forall pkg ensures pkg in all <==> exists i :: 0 <= i < |categories| && Lists(categories[i], pkg) {
      GatheredMembers(BuildDeps, categories, pkg);
    }
    SortedSet(all)
  }

  /** No package appears twice. */
  lemma NoDuplicates(categories: seq<string>)
    ensures var r := BuildDependencies(categories);
      forall i, j :: 0 <= i < j < |r| ==> r[i] != r[j]
  {
    AscendingDistinct(BuildDependencies(categories));
  }

  /** Requests naming the same categories, in any order and with any repeats, get the same list. */
  lemma SameCategoriesSameResult(a: seq<string>, b: seq<string>)
    requires forall c :: c in a <==> c in b
    ensures BuildDependencies(a) == BuildDependencies(b)
  {
    var ra, rb := BuildDependencies(a), BuildDependencies(b);
    forall pkg ensures pkg in ra <==> pkg in rb {
      if pkg in ra {
        var i :| 0 <= i < |a| && Lists(a[i], pkg);
        assert a[i] in b;
        var j :| 0 <= j < |b| && b[j] == a[i];
        assert Lists(b[j], pkg);
      }
      if pkg in rb {
        var j :| 0 <= j < |b| && Lists(b[j], pkg);
        assert b[j] in a;
        var i :| 0 <= i < |a| && a[i] == b[j];
        assert Lists(a[i], pkg);
      }
    }
    AscendingUnique(ra, rb);
  }

  /** An unknown category adds nothing. */
  lemma UnknownCategoryIgnored(categories: seq<string>, c: string)
    requires c !in BuildDeps
    ensures BuildDependencies(categories + [c]) == BuildDependencies(categories)
  {
    var ext := categories + [c];
    var ra, rb := BuildDependencies(ext), BuildDependencies(categories);
    forall pkg ensures pkg in ra <==> pkg in rb {
      if pkg in ra {
        var i :| 0 <= i < |ext| && Lists(ext[i], pkg);
        assert i < |categories| && Lists(categories[i], pkg);
      }
      if pkg in rb {
        var i :| 0 <= i < |categories| && Lists(categories[i], pkg);
        assert Lists(ext[i], pkg);
      }
    }
    AscendingUnique(ra, rb);
  }

  /** Asking for nothing gives nothing. */
  lemma NoCategoriesNoPackages()
    ensures BuildDependencies([]) == []
  {
  }

  /** MPP and RGA together need `libdrm-dev` once, then `meson` and `ninja-build`. */
  lemma MppRgaExample()
    ensures BuildDependencies(["mpp", "rga"]) == ["libdrm-dev", "meson", "ninja-build"]
  {
    var cats := ["mpp", "rga"];
    var want := ["libdrm-dev", "meson", "ninja-build"];
    var r := BuildDependencies(cats);
    assert Less("libdrm-dev", "meson") && Less("meson", "ninja-build");
    LessTransitive("libdrm-dev", "meson", "ninja-build");
    assert StrictlyAscending(want);
    assert BuildDeps["mpp"] == ["libdrm-dev"];
    assert BuildDeps["rga"] == ["libdrm-dev", "meson", "ninja-build"];
    forall pkg ensures pkg in r <==> pkg in want {
      assert Lists(cats[1], pkg) <==> pkg in want;
      assert Lists(cats[0], pkg) ==> pkg in want;
    }
    AscendingUnique(r, want);
  }

  // ---------------------------------------------------------------- build directories

  const DefaultBuildBase := "/root/dev"

  /** `get_build_dir`: the base, or the project's directory under it when a project is named. */
  function BuildDir(base: string := DefaultBuildBase, project: string := ""): (r: string)
    ensures project == "" ==> r == base
    ensures project != "" ==>
      (|r| == |base| + 1 + |project| && r[..|base|] == base && r[|base|] == '/' && r[|base| + 1..] == project)
  {
    if project != "" then base + "/" + project else base
  }

  /** The text after the last `/`, or all of `s` when it has none. */
  function LastSegment(s: string): (r: string)
    ensures |r| <= |s| && r == s[|s| - |r|..]
    ensures '/' !in r
    ensures |r| < |s| ==> s[|s| - |r| - 1] == '/'
  {
    if s == [] || s[|s| - 1] == '/' then []
    else
      var t := LastSegment(s[..|s| - 1]);
      t + [s[|s| - 1]]
  }

  /** A project named without `/` is the last path segment of its build directory. */
  lemma {:induction false} BuildDirLastSegment(base: string, project: string)
    requires project != "" && '/' !in project
    ensures LastSegment(BuildDir(base, project)) == project
  {
    SegmentAfterSlash(base, project);
  }

  lemma {:induction false} SegmentAfterSlash(base: string, tail: string)
    requires '/' !in tail
    ensures LastSegment(base + "/" + tail) == tail
    decreases |tail|
  {
    var s := base + "/" + tail;
    if tail == [] {
      assert s[|s| - 1] == '/';
    } else {
      var init := tail[..|tail| - 1];
      assert s[..|s| - 1] == base + "/" + init;
      assert s[|s| - 1] == tail[|tail| - 1];
      SegmentAfterSlash(base, init);
      assert init + [tail[|tail| - 1]] == tail;
    }
  }

  /** With no arguments the build directory is `/root/dev`. */
  lemma DefaultBuildDir()
    ensures BuildDir() == "/root/dev"
  {
  }
}
