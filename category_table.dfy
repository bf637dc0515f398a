/**
 * The category table both scripts share in shape: `CATEGORY_MAP`, an
 * ordered table from a category name to its set of lower-case extensions,
 * and `EXT_TO_CATEGORY`, the inverse map the module-level loop builds
 * from it.
 */
module CategoryTable {

  datatype Category = Category(name: string, exts: set<string>)

  /** `CATEGORY_MAP` in its dict order. */
  type Table = seq<Category>

  /** `m` with every key of `keys` set to `v`. */
  function SetAll(m: map<string, string>, keys: set<string>, v: string): map<string, string>
  {
    m + map e | e in keys :: v
  }

  lemma SetAllInsert(m: map<string, string>, keys: set<string>, e: string, v: string)
    ensures SetAll(m, keys + {e}, v) == SetAll(m, keys, v)[e := v]
  {
  }

  /**
   * `EXT_TO_CATEGORY` as the nested loop leaves it: each category in table
   * order writes `ext -> category` for all of its extensions.
   */
  function Inverse(t: Table): map<string, string>
  {
    if t == [] then map[] else SetAll(Inverse(t[..|t| - 1]), t[|t| - 1].exts, t[|t| - 1].name)
  }

  /** Index of the last category of `t` listing `e`, or -1 when none does. */
  function LastListing(t: Table, e: string): (r: int)
    ensures -1 <= r < |t|
    ensures r >= 0 ==> e in t[r].exts
    ensures forall j :: r < j < |t| ==> e !in t[j].exts
  {
    if t == [] then -1
    else if e in t[|t| - 1].exts then |t| - 1
    else LastListing(t[..|t| - 1], e)
  }

  /**
   * Last write wins: `e` is a key exactly when some category lists it, and
   * then it maps to the last category in the table that does.
   */
  lemma {:induction false} InverseAt(t: Table, e: string)
    ensures e in Inverse(t) <==> LastListing(t, e) >= 0
    ensures e in Inverse(t) ==> Inverse(t)[e] == t[LastListing(t, e)].name
  {
    if t != [] && e !in t[|t| - 1].exts {
      InverseAt(t[..|t| - 1], e);
    }
  }

  /**
   * The loop at module level: for each category in table order, for each of
   * its extensions in whatever order the set yields them, record
   * `ext -> category`.
   */
  method BuildExtToCategory(t: Table) returns (m: map<string, string>)
    ensures m == Inverse(t)
  {
    m := map[];
    var i := 0;
    while i < |t|
      invariant 0 <= i <= |t|
      invariant m == Inverse(t[..i])
    {
      var rest := t[i].exts;
      ghost var done: set<string> := {};
      while rest != {}
        invariant rest + done == t[i].exts && rest !! done
        invariant m == SetAll(Inverse(t[..i]), done, t[i].name)
        decreases rest
      {
        var e :| e in rest;
        SetAllInsert(Inverse(t[..i]), done, e, t[i].name);
        m := m[e := t[i].name];
        rest := rest - {e};
        done := done + {e};
      }
      assert t[..i + 1][..i] == t[..i];
      i := i + 1;
    }
    assert t[..|t|] == t;
  }

  /** An extension listed by category `i` and by no later one maps to category `i`. */
  lemma InverseLastWins(t: Table, i: int, e: string)
    requires 0 <= i < |t| && e in t[i].exts
    requires forall j :: i < j < |t| ==> e !in t[j].exts
    ensures e in Inverse(t) && Inverse(t)[e] == t[i].name
  {
    InverseAt(t, e);
  }

  /** No extension is listed under two categories. */
  ghost predicate Disjoint(t: Table)
  {
    forall i, j :: 0 <= i < j < |t| ==> t[i].exts !! t[j].exts
  }

  /** In a table without shared extensions the inverse sends every listed extension to its own category. */
  lemma InverseOfDisjoint(t: Table, i: int, e: string)
    requires Disjoint(t)
    requires 0 <= i < |t| && e in t[i].exts
    ensures e in Inverse(t) && Inverse(t)[e] == t[i].name
  {
    InverseLastWins(t, i, e);
  }

  /** `dict.get(key, default)`; `ClassifyIn` states what it gives on the inverse of a table. */
  function Get(m: map<string, string>, key: string, default: string): string
  {
    if key in m then m[key] else default
  }

  /**
   * `inverse.get(ext, fallback)` on the inverse of `t`: the category of the
   * last row that lists `ext`, or `fallback` when no row does.
   */
  function ClassifyIn(t: Table, fallback: string, ext: string): (c: string)
    ensures c == fallback || exists i :: 0 <= i < |t| && c == t[i].name
    ensures c == if LastListing(t, ext) >= 0 then t[LastListing(t, ext)].name else fallback
  {
    InverseAt(t, ext);
    Get(Inverse(t), ext, fallback)
  }

  /** In a table without shared extensions, every listed extension is classified into its own row's category. */
  lemma ClassifyListed(t: Table, fallback: string, i: int, e: string)
    requires Disjoint(t) && 0 <= i < |t| && e in t[i].exts
    ensures ClassifyIn(t, fallback, e) == t[i].name
  {
    InverseOfDisjoint(t, i, e);
  }

  /** An extension no row lists falls back. */
  lemma ClassifyUnlisted(t: Table, fallback: string, e: string)
    requires forall i :: 0 <= i < |t| ==> e !in t[i].exts
    ensures ClassifyIn(t, fallback, e) == fallback
  {
    InverseAt(t, e);
  }
}
