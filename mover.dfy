/**
 * `move_files` of the organising variant: for each category of the grouping,
 * in dict order, create the folder `<desktop>/<category>` if it is missing.
 * Then, for each file of that category, skip it when the folder already has
 * an entry of that name, and otherwise move it there. The loop counts
 * moves, skips and moves per category.
 *
 * The desktop is two things: the names of its top-level files, and its
 * category folders with the names each contains.
 */
module Mover {
  import opened Grouping

  /** The part of the desktop folder that `move_files` reads and changes. */
  class Desktop {
    var files: set<string>
    var dirs: map<string, set<string>>

    constructor (files0: set<string>, dirs0: map<string, set<string>>)
      ensures files == files0 && dirs == dirs0
    {
      files := files0;
      dirs := dirs0;
    }

    /** `(desktop / c / name).exists()`. */
    predicate Has(c: string, name: string)
      reads this
    {
      c in dirs && name in dirs[c]
    }

    /** `(desktop / c).mkdir(exist_ok=True)`: an existing folder is kept as it is. */
    method MakeDir(c: string)
      modifies this
      ensures files == old(files)
      ensures dirs == if c in old(dirs) then old(dirs) else old(dirs)[c := {}]
    {
      if c !in dirs {
        dirs := dirs[c := {}];
      }
    }

    /** `shutil.move(desktop / name, desktop / c / name)`. */
    method Move(name: string, c: string)
      requires c in dirs
      modifies this
      ensures files == old(files) - {name}
      ensures dirs == old(dirs)[c := old(dirs)[c] + {name}]
    {
      files := files - {name};
      dirs := dirs[c := dirs[c] + {name}];
    }
  }

  /** The state `move_files` works on: the desktop plus its three counters. */
  datatype Run = Run(files: set<string>, dirs: map<string, set<string>>, moved: nat, skipped: nat, stats: map<string, nat>)

  /** The state at the call: counters at zero, `stats` an empty `defaultdict(int)`. */
  function Start(files: set<string>, dirs: map<string, set<string>>): Run
  {
    Run(files, dirs, 0, 0, map[])
  }

  /** The names in folder `c`, or none when there is no such folder. */
  function Dest(dirs: map<string, set<string>>, c: string): set<string>
  {
    if c in dirs then dirs[c] else {}
  }

  /** `stats[c]` on a `defaultdict(int)`. */
  function Count(stats: map<string, nat>, c: string): nat
  {
    if c in stats then stats[c] else 0
  }

  function Elems(fs: seq<string>): set<string>
  {
    set f | f in fs
  }

  function MkDir(r: Run, c: string): Run
  {
    if c in r.dirs then r else r.(dirs := r.dirs[c := {}])
  }

  /** One file of the inner loop: skipped when `c` already has its name, otherwise moved and counted. */
  function MoveOne(r: Run, c: string, f: string): Run
  {
    if f in Dest(r.dirs, c) then r.(skipped := r.skipped + 1)
    else
      r.(files := r.files - {f}, dirs := r.dirs[c := Dest(r.dirs, c) + {f}],
         moved := r.moved + 1, stats := r.stats[c := Count(r.stats, c) + 1])
  }

  /** The inner loop over the files of one category, in list order. */
  function MoveGroup(r: Run, c: string, fs: seq<string>): Run
  {
    if fs == [] then r else MoveOne(MoveGroup(r, c, fs[..|fs| - 1]), c, fs[|fs| - 1])
  }

  /** The outer loop: for each category in dict order, create its folder and then move its files. */
  function MoveAll(r: Run, g: Grouping): Run
  {
    if g == [] then r
    else
      var last := g[|g| - 1];
      MoveGroup(MkDir(MoveAll(r, g[..|g| - 1]), last.category), last.category, last.files)
  }

  /** `move_files(grouped)` on the desktop `desk`, returning the counters it would print. */
  method MoveFiles(desk: Desktop, grouped: Grouping) returns (moved: nat, skipped: nat, stats: map<string, nat>)
    modifies desk
    ensures Run(desk.files, desk.dirs, moved, skipped, stats) == MoveAll(Start(old(desk.files), old(desk.dirs)), grouped)
  {
    ghost var start := Start(desk.files, desk.dirs);
    moved, skipped, stats := 0, 0, map[];
    var i := 0;
    while i < |grouped|
      invariant 0 <= i <= |grouped|
      invariant Run(desk.files, desk.dirs, moved, skipped, stats) == MoveAll(start, grouped[..i])
    {
      var category := grouped[i].category;
      var files := grouped[i].files;
      assert grouped[..i + 1][..i] == grouped[..i];
      desk.MakeDir(category);
      ghost var made := Run(desk.files, desk.dirs, moved, skipped, stats);
      var j := 0;
      while j < |files|
        invariant 0 <= j <= |files|
        invariant category in desk.dirs
        invariant Run(desk.files, desk.dirs, moved, skipped, stats) == MoveGroup(made, category, files[..j])
      {
        var f := files[j];
        assert files[..j + 1][..j] == files[..j];
        if desk.Has(category, f) {
          skipped := skipped + 1;
        } else {
          desk.Move(f, category);
          moved := moved + 1;
          stats := stats[category := Count(stats, category) + 1];
        }
        j := j + 1;
      }
      assert files[..|files|] == files;
      i := i + 1;
    }
    assert grouped[..|grouped|] == grouped;
  }

  // ----- Counters -----

  /** Every file of a category is either moved or skipped. */
  lemma {:induction false} MoveGroupCounts(r: Run, c: string, fs: seq<string>)
    ensures MoveGroup(r, c, fs).moved + MoveGroup(r, c, fs).skipped == r.moved + r.skipped + |fs|
  {
    if fs != [] {
      MoveGroupCounts(r, c, fs[..|fs| - 1]);
    }
  }

  /** `moved + skipped` grows by exactly the number of files in the grouping. */
  lemma {:induction false} MoveAllCounts(r: Run, g: Grouping)
    ensures MoveAll(r, g).moved + MoveAll(r, g).skipped == r.moved + r.skipped + Total(g)
  {
    if g != [] {
      var last := g[|g| - 1];
      MoveAllCounts(r, g[..|g| - 1]);
      MoveGroupCounts(MkDir(MoveAll(r, g[..|g| - 1]), last.category), last.category, last.files);
    }
  }

  /** The sum of the values of a map. */
  ghost function MapSum(m: map<string, nat>): nat
    decreases |m|
  {
    if m == map[] then 0
    else
      var k :| k in m;
      assert |m - {k}| < |m| by {
        assert m.Keys - {k} < m.Keys;
      }
      m[k] + MapSum(m - {k})
  }

  /** The sum does not depend on which key the definition picks first. */
  lemma {:induction false} MapSumRemove(m: map<string, nat>, k: string)
    requires k in m
    ensures MapSum(m) == m[k] + MapSum(m - {k})
    decreases |m|
  {
    var k' :| k' in m && MapSum(m) == m[k'] + MapSum(m - {k'});
    if k' != k {
      assert (m - {k'}).Keys - {k} < (m - {k'}).Keys;
      assert (m - {k}).Keys - {k'} < (m - {k}).Keys;
      MapSumRemove(m - {k'}, k);
      MapSumRemove(m - {k}, k');
      assert m - {k'} - {k} == m - {k} - {k'};
    }
  }

  /** Setting one key changes the sum by the difference of its new and old values. */
  lemma MapSumUpdate(m: map<string, nat>, k: string, v: nat)
    ensures MapSum(m[k := v]) + Count(m, k) == MapSum(m) + v
  {
    MapSumRemove(m[k := v], k);
    if k in m {
      assert m[k := v] - {k} == m - {k};
      MapSumRemove(m, k);
    } else {
      assert m[k := v] - {k} == m;
    }
  }

  /** The per-category counts add up to `moved`, and a category is only counted once something moved into it. */
  ghost predicate StatsAgree(r: Run)
  {
    MapSum(r.stats) == r.moved && forall c :: c in r.stats ==> r.stats[c] >= 1
  }

  lemma MoveOneStats(r: Run, c: string, f: string)
    requires StatsAgree(r)
    ensures StatsAgree(MoveOne(r, c, f))
    ensures forall d :: d in MoveOne(r, c, f).stats ==> d in r.stats || d == c
  {
    MapSumUpdate(r.stats, c, Count(r.stats, c) + 1);
  }

  lemma {:induction false} MoveGroupStats(r: Run, c: string, fs: seq<string>)
    requires StatsAgree(r)
    ensures StatsAgree(MoveGroup(r, c, fs))
    ensures forall d :: d in MoveGroup(r, c, fs).stats ==> d in r.stats || d == c
  {
    if fs != [] {
      MoveGroupStats(r, c, fs[..|fs| - 1]);
      MoveOneStats(MoveGroup(r, c, fs[..|fs| - 1]), c, fs[|fs| - 1]);
    }
  }

  /** The counters agree after every prefix of the outer loop, and only the grouping's categories are counted. */
  lemma {:induction false} MoveAllStats(r: Run, g: Grouping)
    requires StatsAgree(r)
    ensures StatsAgree(MoveAll(r, g))
    ensures forall d :: d in MoveAll(r, g).stats ==> d in r.stats || IsKey(g, d)
  {
    if g != [] {
      var p := g[..|g| - 1];
      var last := g[|g| - 1];
      MoveAllStats(r, p);
      MoveGroupStats(MkDir(MoveAll(r, p), last.category), last.category, last.files);
      forall d | IsKey(p, d)
        ensures IsKey(g, d)
      {
        KeyOfPrefix(g, d);
      }
    }
  }

  lemma KeyOfPrefix(g: Grouping, d: string)
    requires g != [] && IsKey(g[..|g| - 1], d)
    ensures IsKey(g, d)
  {
  }

  /**
   * What `move_files` reports: `moved + skipped` is the number of files in
   * the grouping, the per-category counts add up to `moved`, and `stats`
   * only has categories of the grouping into which at least one file moved.
   */
  lemma MoveFilesCounters(files: set<string>, dirs: map<string, set<string>>, g: Grouping)
    ensures var r := MoveAll(Start(files, dirs), g);
      && r.moved + r.skipped == Total(g)
      && MapSum(r.stats) == r.moved
      && forall c :: c in r.stats ==> r.stats[c] >= 1 && IsKey(g, c)
  {
    MoveAllCounts(Start(files, dirs), g);
    MoveAllStats(Start(files, dirs), g);
  }

  // ----- Effect on the desktop -----

  /** The last group decides the lookup of its own category; the others are looked up in the rest. */
  lemma LookupLast(g: Grouping, c: string)
    requires g != []
    ensures Lookup(g, c) == if c == g[|g| - 1].category then g[|g| - 1].files else Lookup(g[..|g| - 1], c)
    ensures IsKey(g, c) <==> c == g[|g| - 1].category || IsKey(g[..|g| - 1], c)
  {
  }

  /** In a grouping with unique keys, each group is what its own category looks up. */
  lemma LookupAt(g: Grouping, i: int)
    requires UniqueCategories(g) && 0 <= i < |g|
    ensures IsKey(g, g[i].category) && Lookup(g, g[i].category) == g[i].files
  {
  }

  /**
   * One category's inner loop: its folder ends up with every name of the
   * list added, and the files whose names the folder did not already have
   * leave the top level.
   */
  lemma {:induction false} MoveGroupEffect(r: Run, c: string, fs: seq<string>)
    requires c in r.dirs
    ensures MoveGroup(r, c, fs).files == r.files - (Elems(fs) - r.dirs[c])
    ensures MoveGroup(r, c, fs).dirs == r.dirs[c := r.dirs[c] + Elems(fs)]
  {
    if fs == [] {
      assert r.dirs[c] + Elems(fs) == r.dirs[c];
      assert r.dirs[c := r.dirs[c]] == r.dirs;
    } else {
      var front, f := fs[..|fs| - 1], fs[|fs| - 1];
      MoveGroupEffect(r, c, front);
      assert Elems(fs) == Elems(front) + {f} by {
        assert fs == front + [f];
      }
      var before := r.dirs[c] + Elems(front);
      assert r.dirs[c] + Elems(fs) == before + {f};
      if f in before {
        assert before + {f} == before;
        assert MoveGroup(r, c, fs).dirs == r.dirs[c := before];
      } else {
        assert r.dirs[c := before][c := before + {f}] == r.dirs[c := before + {f}];
      }
    }
  }

  /** A name some group lists under a category whose folder did not have it at the start. */
  ghost predicate Leaves(dirs: map<string, set<string>>, g: Grouping, f: string)
  {
    exists c :: f in Lookup(g, c) && f !in Dest(dirs, c)
  }

  lemma LeavesLast(dirs: map<string, set<string>>, g: Grouping, f: string)
    requires g != [] && !IsKey(g[..|g| - 1], g[|g| - 1].category)
    ensures Leaves(dirs, g, f)
        <==> Leaves(dirs, g[..|g| - 1], f) || (f in g[|g| - 1].files && f !in Dest(dirs, g[|g| - 1].category))
  {
    var p, last := g[..|g| - 1], g[|g| - 1];
    if Leaves(dirs, g, f) {
      var c :| f in Lookup(g, c) && f !in Dest(dirs, c);
      LookupLast(g, c);
    }
    if Leaves(dirs, p, f) {
      var c :| f in Lookup(p, c) && f !in Dest(dirs, c);
      LookupLast(g, c);
      assert f in Lookup(g, c);
    }
    if f in last.files && f !in Dest(dirs, last.category) {
      LookupLast(g, last.category);
    }
  }

  lemma UniquePrefix(g: Grouping)
    requires g != [] && UniqueCategories(g)
    ensures UniqueCategories(g[..|g| - 1]) && !IsKey(g[..|g| - 1], g[|g| - 1].category)
  {
  }

  /**
   * The whole run, for a grouping with unique keys: each category folder
   * gains exactly the names listed under it, the folders of the grouping's
   * categories exist, and a top-level file is gone exactly when it is
   * listed under a category whose folder did not already have its name.
   */
  lemma {:induction false} MoveAllEffect(r: Run, g: Grouping)
    requires UniqueCategories(g)
    ensures forall c :: Dest(MoveAll(r, g).dirs, c) == Dest(r.dirs, c) + Elems(Lookup(g, c))
    ensures forall c :: c in MoveAll(r, g).dirs <==> c in r.dirs || IsKey(g, c)
    ensures forall f :: f in MoveAll(r, g).files <==> f in r.files && !Leaves(r.dirs, g, f)
  {
    if g == [] {
      forall c ensures Elems(Lookup(g, c)) == {} {}
      forall f ensures !Leaves(r.dirs, g, f) {}
    } else {
      var p, last := g[..|g| - 1], g[|g| - 1];
      var c0 := last.category;
      UniquePrefix(g);
      MoveAllEffect(r, p);
      var r1 := MoveAll(r, p);
      var r2 := MkDir(r1, c0);
      assert Elems(Lookup(p, c0)) == {};
      assert r2.dirs[c0] == Dest(r.dirs, c0);
      MoveGroupEffect(r2, c0, last.files);
      forall c
        ensures Dest(MoveAll(r, g).dirs, c) == Dest(r.dirs, c) + Elems(Lookup(g, c))
        ensures c in MoveAll(r, g).dirs <==> c in r.dirs || IsKey(g, c)
      {
        LookupLast(g, c);
      }
      forall f
        ensures f in MoveAll(r, g).files <==> f in r.files && !Leaves(r.dirs, g, f)
      {
        LeavesLast(r.dirs, g, f);
      }
    }
  }

  /**
   * Every name a category folder had before the run is still there, and
   * every file of the grouping has its name there afterwards.
   */
  lemma MoveFilesKeeps(files: set<string>, dirs: map<string, set<string>>, g: Grouping, c: string)
    requires UniqueCategories(g)
    ensures Dest(dirs, c) <= Dest(MoveAll(Start(files, dirs), g).dirs, c)
    ensures Elems(Lookup(g, c)) <= Dest(MoveAll(Start(files, dirs), g).dirs, c)
  {
    MoveAllEffect(Start(files, dirs), g);
  }

  /** A file whose name its category folder already has is skipped and stays where it is. */
  lemma SkippedStaysAtSource(files: set<string>, dirs: map<string, set<string>>, g: Grouping, c: string, f: string)
    requires UniqueCategories(g) && DistinctFiles(g)
    requires f in Lookup(g, c) && f in Dest(dirs, c)
    ensures f in MoveAll(Start(files, dirs), g).files <==> f in files
  {
    MoveAllEffect(Start(files, dirs), g);
  }

  /** A file whose category folder lacks its name is moved off the top level. */
  lemma MovedLeavesSource(files: set<string>, dirs: map<string, set<string>>, g: Grouping, c: string, f: string)
    requires UniqueCategories(g)
    requires f in Lookup(g, c) && f !in Dest(dirs, c)
    ensures f !in MoveAll(Start(files, dirs), g).files && f in Dest(MoveAll(Start(files, dirs), g).dirs, c)
  {
    MoveAllEffect(Start(files, dirs), g);
  }

  // ----- Running twice -----

  lemma {:induction false} MoveGroupAllPresent(r: Run, c: string, fs: seq<string>)
    requires c in r.dirs && Elems(fs) <= r.dirs[c]
    ensures MoveGroup(r, c, fs) == r.(skipped := r.skipped + |fs|)
  {
    if fs != [] {
      var front := fs[..|fs| - 1];
      assert Elems(front) <= Elems(fs);
      assert fs[|fs| - 1] in Elems(fs);
      MoveGroupAllPresent(r, c, front);
    }
  }

  /** When every folder already has every name listed under it, the run only counts skips. */
  lemma {:induction false} MoveAllAllPresent(r: Run, g: Grouping)
    requires forall i :: 0 <= i < |g| ==> g[i].category in r.dirs && Elems(g[i].files) <= r.dirs[g[i].category]
    ensures MoveAll(r, g) == r.(skipped := r.skipped + Total(g))
  {
    if g != [] {
      var p, last := g[..|g| - 1], g[|g| - 1];
      MoveAllAllPresent(r, p);
      MoveGroupAllPresent(MoveAll(r, p), last.category, last.files);
    }
  }

  /**
   * Running `move_files` a second time with the same grouping moves
   * nothing: every file is skipped and the desktop stays as the first run
   * left it.
   */
  lemma MoveTwice(files: set<string>, dirs: map<string, set<string>>, g: Grouping)
    requires UniqueCategories(g)
    ensures var r1 := MoveAll(Start(files, dirs), g);
      var r2 := MoveAll(Start(r1.files, r1.dirs), g);
      && r2.moved == 0 && r2.skipped == Total(g) && r2.stats == map[]
      && r2.files == r1.files && r2.dirs == r1.dirs
  {
    var r1 := MoveAll(Start(files, dirs), g);
    MoveAllEffect(Start(files, dirs), g);
    forall i | 0 <= i < |g|
      ensures g[i].category in r1.dirs && Elems(g[i].files) <= r1.dirs[g[i].category]
    {
      LookupAt(g, i);
      assert Dest(r1.dirs, g[i].category) == Dest(dirs, g[i].category) + Elems(Lookup(g, g[i].category));
    }
    MoveAllAllPresent(Start(r1.files, r1.dirs), g);
  }
}
