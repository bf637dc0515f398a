/**
 * The `grouped = defaultdict(list)` both scanners fill: a dict from a
 * category name to the list of files put under it, in the order the
 * categories were first used (Python dicts keep insertion order).
 */
module Grouping {
  import opened NameOrder

  datatype Group = Group(category: string, files: seq<string>)

  type Grouping = seq<Group>

  /** One file that passed the scanner's filters, with the category it was classified into. */
  datatype Item = Item(category: string, name: string)

  /** Dict keys are unique. */
  ghost predicate UniqueCategories(g: Grouping)
  {
    forall i, j :: 0 <= i < j < |g| ==> g[i].category != g[j].category
  }

  /** A defaultdict only gets a key when something is appended to it, so no list is empty. */
  ghost predicate NoEmptyGroup(g: Grouping)
  {
    forall i :: 0 <= i < |g| ==> g[i].files != []
  }

  /** Position of the key `c`, or -1 when `c` is not a key. */
  function IndexOf(g: Grouping, c: string): (r: int)
    ensures -1 <= r < |g|
    ensures r >= 0 ==> g[r].category == c
    ensures r < 0 ==> forall i :: 0 <= i < |g| ==> g[i].category != c
  {
    if g == [] then -1
    else if g[|g| - 1].category == c then |g| - 1
    else IndexOf(g[..|g| - 1], c)
  }

  /** `c in grouped`. */
  predicate IsKey(g: Grouping, c: string)
  {
    IndexOf(g, c) >= 0
  }

  /** `grouped.get(c, [])`. */
  function Lookup(g: Grouping, c: string): seq<string>
  {
    var i := IndexOf(g, c);
    if i < 0 then [] else g[i].files
  }

  /** `sum(len(files) for files in grouped.values())`. */
  function Total(g: Grouping): nat
  {
    if g == [] then 0 else Total(g[..|g| - 1]) + |g[|g| - 1].files|
  }

  /** `grouped[c].append(f)`: a new key `c` goes at the end with the list `[f]`. */
  function Append(g: Grouping, c: string, f: string): Grouping
  {
    var i := IndexOf(g, c);
    if i < 0 then g + [Group(c, [f])] else g[i := Group(c, g[i].files + [f])]
  }

  /** Appending extends the list under `c` by `f`, leaves every other key's list alone and adds no key but `c`. */
  lemma AppendLookup(g: Grouping, c: string, f: string, d: string)
    ensures Lookup(Append(g, c, f), d) == if d == c then Lookup(g, d) + [f] else Lookup(g, d)
    ensures IsKey(Append(g, c, f), d) <==> IsKey(g, d) || d == c
  {
    var r := Append(g, c, f);
    var i := IndexOf(g, c);
    if i < 0 {
      assert r[..|g|] == g;
    } else {
      IndexOfSameCategories(g, r, d);
    }
  }

  /** Appending adds one entry and keeps the keys unique and the lists non-empty. */
  lemma AppendShape(g: Grouping, c: string, f: string)
    ensures Total(Append(g, c, f)) == Total(g) + 1
    ensures UniqueCategories(g) ==> UniqueCategories(Append(g, c, f))
    ensures NoEmptyGroup(g) ==> NoEmptyGroup(Append(g, c, f))
  {
    var i := IndexOf(g, c);
    if i < 0 {
      var r := g + [Group(c, [f])];
      assert r[..|g|] == g;
    } else {
      TotalUpdate(g, i, f);
    }
  }

  lemma {:induction false} IndexOfSameCategories(g: Grouping, h: Grouping, d: string)
    requires |g| == |h| && forall k :: 0 <= k < |g| ==> g[k].category == h[k].category
    ensures IndexOf(g, d) == IndexOf(h, d)
  {
    if g != [] && g[|g| - 1].category != d {
      IndexOfSameCategories(g[..|g| - 1], h[..|h| - 1], d);
    }
  }

  lemma {:induction false} TotalUpdate(g: Grouping, i: int, f: string)
    requires 0 <= i < |g|
    ensures Total(g[i := Group(g[i].category, g[i].files + [f])]) == Total(g) + 1
  {
    var r := g[i := Group(g[i].category, g[i].files + [f])];
    if i < |g| - 1 {
      assert r[..|r| - 1] == g[..|g| - 1][i := Group(g[i].category, g[i].files + [f])];
      TotalUpdate(g[..|g| - 1], i, f);
    } else {
      assert r[..|r| - 1] == g[..|g| - 1];
    }
  }

  /** The grouping the scanner loop builds from the files it keeps, in iteration order. */
  function GroupAll(items: seq<Item>): Grouping
  {
    if items == [] then []
    else Append(GroupAll(items[..|items| - 1]), items[|items| - 1].category, items[|items| - 1].name)
  }

  lemma GroupAllSnoc(items: seq<Item>, it: Item)
    ensures GroupAll(items + [it]) == Append(GroupAll(items), it.category, it.name)
  {
    assert (items + [it])[..|items|] == items;
  }

  /** Names of the items classified into `c`, in iteration order. */
  function Select(items: seq<Item>, c: string): (names: seq<string>)
    ensures |names| <= |items|
  {
    if items == [] then []
    else
      var last := items[|items| - 1];
      Select(items[..|items| - 1], c) + (if last.category == c then [last.name] else [])
  }

  /** The list kept under each category is exactly the files classified into it, in iteration order. */
  lemma {:induction false} GroupAllLookup(items: seq<Item>, c: string)
    ensures Lookup(GroupAll(items), c) == Select(items, c)
  {
    if items != [] {
      var last := items[|items| - 1];
      GroupAllLookup(items[..|items| - 1], c);
      AppendLookup(GroupAll(items[..|items| - 1]), last.category, last.name, c);
    }
  }

  /** The grouping has unique keys, no empty list, and as many entries in all as there were items. */
  lemma {:induction false} GroupAllShape(items: seq<Item>)
    ensures UniqueCategories(GroupAll(items)) && NoEmptyGroup(GroupAll(items))
    ensures Total(GroupAll(items)) == |items|
  {
    if items != [] {
      var last := items[|items| - 1];
      GroupAllShape(items[..|items| - 1]);
      AppendShape(GroupAll(items[..|items| - 1]), last.category, last.name);
    }
  }

  /** A category is a key of the grouping exactly when some item was classified into it. */
  lemma {:induction false} GroupAllCategories(items: seq<Item>, c: string)
    ensures IsKey(GroupAll(items), c) <==> exists k :: 0 <= k < |items| && items[k].category == c
  {
    if items != [] {
      var p := items[..|items| - 1];
      var last := items[|items| - 1];
      GroupAllCategories(p, c);
      AppendLookup(GroupAll(p), last.category, last.name, c);
      if last.category == c {
        assert items[|items| - 1].category == c;
      } else if exists k :: 0 <= k < |items| && items[k].category == c {
        var k :| 0 <= k < |items| && items[k].category == c;
        assert p[k].category == c;
      }
    }
  }

  /** A name is selected under `c` exactly when some item with that name was classified into `c`. */
  lemma {:induction false} SelectMember(items: seq<Item>, c: string, x: string)
    ensures x in Select(items, c) <==> exists k :: 0 <= k < |items| && items[k].name == x && items[k].category == c
  {
    if items != [] {
      var p := items[..|items| - 1];
      SelectMember(p, c, x);
      if exists k :: 0 <= k < |items| && items[k].name == x && items[k].category == c {
        var k :| 0 <= k < |items| && items[k].name == x && items[k].category == c;
        if k < |p| {
          assert p[k].name == x && p[k].category == c;
        }
      }
    }
  }

  ghost predicate DistinctNames(items: seq<Item>)
  {
    forall k, l :: 0 <= k < l < |items| ==> items[k].name != items[l].name
  }

  /**
   * When the items have distinct names (directory entries do), every item
   * is found in the group of its own category and in no other.
   */
  lemma ExactlyOneGroup(items: seq<Item>, k: int, c: string)
    requires DistinctNames(items) && 0 <= k < |items|
    ensures items[k].name in Lookup(GroupAll(items), c) <==> c == items[k].category
  {
    GroupAllLookup(items, c);
    SelectMember(items, c, items[k].name);
  }

  /** Each list is duplicate-free and no name is in two lists. */
  ghost predicate DistinctFiles(g: Grouping)
  {
    && (forall i :: 0 <= i < |g| ==> NoDup(g[i].files))
    && (forall i, j, x :: 0 <= i < j < |g| && x in g[i].files ==> x !in g[j].files)
  }

  lemma {:induction false} SelectNoDup(items: seq<Item>, c: string)
    requires DistinctNames(items)
    ensures NoDup(Select(items, c))
  {
    if items != [] {
      var p := items[..|items| - 1];
      var last := items[|items| - 1];
      SelectNoDup(p, c);
      if last.category == c {
        SelectMember(p, c, last.name);
      }
    }
  }

  /** Names scanned from one directory are grouped without repeats. */
  lemma GroupAllDistinct(items: seq<Item>)
    requires DistinctNames(items)
    ensures DistinctFiles(GroupAll(items))
  {
    var g := GroupAll(items);
    GroupAllShape(items);
    forall i | 0 <= i < |g|
      ensures g[i].files == Select(items, g[i].category)
    {
      GroupAllLookup(items, g[i].category);
    }
    forall i | 0 <= i < |g|
      ensures NoDup(g[i].files)
    {
      SelectNoDup(items, g[i].category);
    }
    forall i, j, x | 0 <= i < j < |g| && x in g[i].files
      ensures x !in g[j].files
    {
      SelectMember(items, g[i].category, x);
      SelectMember(items, g[j].category, x);
    }
  }

  /** A directory entry as `iterdir()` yields it: its name and whether `is_file()` holds. */
  datatype Entry = Entry(name: string, isFile: bool)

  /** Directory entries have distinct names. */
  ghost predicate DistinctEntries(listing: seq<Entry>)
  {
    forall k, l :: 0 <= k < l < |listing| ==> listing[k].name != listing[l].name
  }

  /** The entries a scanner loop keeps, in iteration order, each tagged with its category. */
  function Items(listing: seq<Entry>, keep: Entry -> bool, category: string -> string): seq<Item>
  {
    if listing == [] then []
    else
      var last := listing[|listing| - 1];
      Items(listing[..|listing| - 1], keep, category)
        + (if keep(last) then [Item(category(last.name), last.name)] else [])
  }

  /** An item is a kept entry under the category of its name. */
  lemma {:induction false} ItemsMember(listing: seq<Entry>, keep: Entry -> bool, category: string -> string, x: string, c: string)
    ensures (exists k :: 0 <= k < |Items(listing, keep, category)| && Items(listing, keep, category)[k] == Item(c, x))
        <==> (exists j :: 0 <= j < |listing| && listing[j].name == x && keep(listing[j])) && category(x) == c
  {
    if listing != [] {
      var p := listing[..|listing| - 1];
      var last := listing[|listing| - 1];
      ItemsMember(p, keep, category, x, c);
      if exists k :: 0 <= k < |Items(listing, keep, category)| && Items(listing, keep, category)[k] == Item(c, x) {
        var k :| 0 <= k < |Items(listing, keep, category)| && Items(listing, keep, category)[k] == Item(c, x);
        if k < |Items(p, keep, category)| {
          assert Items(p, keep, category)[k] == Item(c, x);
          var j :| 0 <= j < |p| && p[j].name == x && keep(p[j]);
          assert listing[j] == p[j];
        } else {
          assert last.name == x && keep(last);
        }
      }
      if (exists j :: 0 <= j < |listing| && listing[j].name == x && keep(listing[j])) && category(x) == c {
        var j :| 0 <= j < |listing| && listing[j].name == x && keep(listing[j]);
        if j < |p| {
          assert p[j].name == x && keep(p[j]);
          var k :| 0 <= k < |Items(p, keep, category)| && Items(p, keep, category)[k] == Item(c, x);
          assert Items(listing, keep, category)[k] == Item(c, x);
        } else {
          var items := Items(listing, keep, category);
          assert items[|items| - 1] == Item(c, x);
        }
      }
    }
  }

  /** Items keep the names of kept entries, so distinct entries give distinct items. */
  lemma {:induction false} ItemsDistinct(listing: seq<Entry>, keep: Entry -> bool, category: string -> string)
    requires DistinctEntries(listing)
    ensures DistinctNames(Items(listing, keep, category))
  {
    if listing != [] {
      var p := listing[..|listing| - 1];
      var last := listing[|listing| - 1];
      ItemsDistinct(p, keep, category);
      forall k | 0 <= k < |Items(p, keep, category)|
        ensures Items(p, keep, category)[k].name != last.name
      {
        var it := Items(p, keep, category)[k];
        ItemsMember(p, keep, category, it.name, it.category);
      }
    }
  }

  /** One more entry of the listing appends its item to the grouping when the entry is kept, and changes nothing otherwise. */
  lemma GroupAllItemsStep(listing: seq<Entry>, keep: Entry -> bool, category: string -> string, i: int)
    requires 0 <= i < |listing|
    ensures var e := listing[i];
      GroupAll(Items(listing[..i + 1], keep, category))
        == if keep(e) then Append(GroupAll(Items(listing[..i], keep, category)), category(e.name), e.name)
           else GroupAll(Items(listing[..i], keep, category))
  {
    assert listing[..i + 1][..i] == listing[..i];
    var e := listing[i];
    var pre := Items(listing[..i], keep, category);
    assert Items(listing[..i + 1], keep, category)
      == pre + (if keep(e) then [Item(category(e.name), e.name)] else []);
    if keep(e) {
      GroupAllSnoc(pre, Item(category(e.name), e.name));
    } else {
      assert Items(listing[..i + 1], keep, category) == pre;
    }
  }

  /** `list(grouped)`: the keys in insertion order. */
  function Keys(g: Grouping): (ks: seq<string>)
    ensures |ks| == |g| && forall i :: 0 <= i < |g| ==> ks[i] == g[i].category
  {
    if g == [] then [] else Keys(g[..|g| - 1]) + [g[|g| - 1].category]
  }

  /** The keys are the categories that are keys, each once. */
  lemma KeysAreKeys(g: Grouping)
    ensures forall c :: c in Keys(g) <==> IsKey(g, c)
    ensures UniqueCategories(g) ==> NoDup(Keys(g))
  {
    forall c | IsKey(g, c)
      ensures c in Keys(g)
    {
      assert Keys(g)[IndexOf(g, c)] == c;
    }
  }

  /** The number of entries of the listing that `keep` accepts. */
  function CountKept(listing: seq<Entry>, keep: Entry -> bool): nat
  {
    if listing == [] then 0
    else CountKept(listing[..|listing| - 1], keep) + (if keep(listing[|listing| - 1]) then 1 else 0)
  }

  /** Each kept entry gives one item. */
  lemma {:induction false} ItemsLength(listing: seq<Entry>, keep: Entry -> bool, category: string -> string)
    ensures |Items(listing, keep, category)| == CountKept(listing, keep)
  {
    if listing != [] {
      ItemsLength(listing[..|listing| - 1], keep, category);
    }
  }

  /** A name is in the list of `c` exactly when a kept entry has that name and `c` is the category of that name. */
  lemma GroupedMember(listing: seq<Entry>, keep: Entry -> bool, category: string -> string, c: string, x: string)
    ensures x in Lookup(GroupAll(Items(listing, keep, category)), c)
        <==> (exists j :: 0 <= j < |listing| && listing[j].name == x && keep(listing[j])) && category(x) == c
  {
    var items := Items(listing, keep, category);
    GroupAllLookup(items, c);
    SelectMember(items, c, x);
    ItemsMember(listing, keep, category, x, c);
    if exists k :: 0 <= k < |items| && items[k].name == x && items[k].category == c {
      var k :| 0 <= k < |items| && items[k].name == x && items[k].category == c;
      assert items[k] == Item(c, x);
    }
  }

  lemma {:induction false} NoneKept(listing: seq<Entry>, keep: Entry -> bool, category: string -> string)
    requires forall j :: 0 <= j < |listing| ==> !keep(listing[j])
    ensures Items(listing, keep, category) == []
  {
    if listing != [] {
      NoneKept(listing[..|listing| - 1], keep, category);
    }
  }

  /**
   * The grouping a scanner loop builds has unique keys and no empty list,
   * holds as many names in all as there are kept entries, and is empty
   * exactly when no entry is kept.
   */
  lemma GroupedShape(listing: seq<Entry>, keep: Entry -> bool, category: string -> string)
    ensures var g := GroupAll(Items(listing, keep, category));
      UniqueCategories(g) && NoEmptyGroup(g) && Total(g) == CountKept(listing, keep)
    ensures GroupAll(Items(listing, keep, category)) == [] <==> forall j :: 0 <= j < |listing| ==> !keep(listing[j])
  {
    GroupAllShape(Items(listing, keep, category));
    ItemsLength(listing, keep, category);
    if exists j :: 0 <= j < |listing| && keep(listing[j]) {
      var j :| 0 <= j < |listing| && keep(listing[j]);
      GroupedMember(listing, keep, category, category(listing[j].name), listing[j].name);
    } else {
      NoneKept(listing, keep, category);
    }
  }

  /** The number of names listed under the keys `ks`, counted key by key. */
  function KeyedTotal(g: Grouping, ks: seq<string>): nat
  {
    if ks == [] then 0 else KeyedTotal(g, ks[..|ks| - 1]) + |Lookup(g, ks[|ks| - 1])|
  }

  lemma {:induction false} KeyedTotalConcat(g: Grouping, a: seq<string>, b: seq<string>)
    ensures KeyedTotal(g, a + b) == KeyedTotal(g, a) + KeyedTotal(g, b)
  {
    if b != [] {
      assert (a + b)[..|a + b| - 1] == a + b[..|b| - 1];
      KeyedTotalConcat(g, a, b[..|b| - 1]);
    } else {
      assert a + b == a;
    }
  }

  /** Counting key by key does not depend on the order of the keys. */
  lemma {:induction false} KeyedTotalPermutation(g: Grouping, ks: seq<string>, ls: seq<string>)
    requires multiset(ks) == multiset(ls)
    ensures KeyedTotal(g, ks) == KeyedTotal(g, ls)
    decreases |ks|
  {
    if ks == [] {
      assert |multiset(ls)| == 0;
    } else {
      var p, x := ks[..|ks| - 1], ks[|ks| - 1];
      assert ks == p + [x];
      assert x in multiset(ls);
      var i :| 0 <= i < |ls| && ls[i] == x;
      var rest := ls[..i] + ls[i + 1..];
      assert ls == ls[..i] + [x] + ls[i + 1..];
      assert multiset(p) == multiset(rest) by {
        assert multiset(ks) == multiset(p) + multiset{x};
        assert multiset(ls) == multiset(ls[..i]) + multiset{x} + multiset(ls[i + 1..]);
        assert multiset(rest) == multiset(ls[..i]) + multiset(ls[i + 1..]);
        assert multiset(p) == multiset(ks) - multiset{x};
        assert multiset(rest) == multiset(ls) - multiset{x};
      }
      KeyedTotalPermutation(g, p, rest);
      KeyedTotalConcat(g, ls[..i], ls[i + 1..]);
      KeyedTotalConcat(g, ls[..i] + [x], ls[i + 1..]);
      KeyedTotalConcat(g, ls[..i], [x]);
      assert KeyedTotal(g, [x]) == |Lookup(g, x)| by {
        assert [x][..0] == [];
      }
    }
  }

  lemma {:induction false} KeyedTotalPrefix(g: Grouping, ks: seq<string>)
    requires g != [] && g[|g| - 1].category !in ks
    ensures KeyedTotal(g, ks) == KeyedTotal(g[..|g| - 1], ks)
  {
    if ks != [] {
      KeyedTotalPrefix(g, ks[..|ks| - 1]);
      assert ks[|ks| - 1] in ks;
    }
  }

  /** With unique keys, counting key by key over all keys gives the total. */
  lemma {:induction false} KeyedTotalOfKeys(g: Grouping)
    requires UniqueCategories(g)
    ensures KeyedTotal(g, Keys(g)) == Total(g)
  {
    if g != [] {
      var p, last := g[..|g| - 1], g[|g| - 1];
      assert UniqueCategories(p);
      KeyedTotalOfKeys(p);
      assert Keys(g) == Keys(p) + [last.category];
      assert Keys(g)[..|g| - 1] == Keys(p);
      assert last.category !in Keys(p);
      KeyedTotalPrefix(g, Keys(p));
    }
  }
}
