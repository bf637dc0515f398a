/**
 * `list_files.py`: the listing variant. It classifies like the organising
 * one, with English category names, an extra "shortcuts" category and the
 * fallback "etc", keeps every regular file (there is no skip list), and
 * prints the categories in sorted order, each with its sorted names and
 * their count.
 */
module ListFiles {
  import opened PathNames
  import opened CategoryTable
  import opened Grouping
  import opened Extensions
  import opened NameOrder

  /** `CATEGORY_MAP`, in its dict order. */
  function CategoryMap(): Table
  {
    [
      Category("images", ImageExts()),
      Category("documents", DocumentExts()),
      Category("videos", VideoExts()),
      Category("audio", AudioExts()),
      Category("archives", ArchiveExts()),
      Category("executables", ExecutableExts()),
      Category("code", CodeExts()),
      Category("shortcuts", ShortcutExts()),
      Category("cad", CadExts())
    ]
  }

  /** The category of every extension the table does not list. */
  const Etc: string := "etc"

  /** `EXT_TO_CATEGORY`, as `BuildExtToCategory` computes it from the table. */
  function ExtToCategory(): map<string, string>
  {
    Inverse(CategoryMap())
  }

  /** `EXT_TO_CATEGORY.get(ext, "etc")`. */
  function Classify(ext: string): string
  {
    ClassifyIn(CategoryMap(), Etc, ext)
  }

  /** No extension of the table is listed under two categories. */
  lemma TableDisjoint()
    ensures Disjoint(CategoryMap())
  {
    ImageApartDocument(); ImageApartVideo(); ImageApartAudio(); ImageApartArchive(); ImageApartExecutable(); ImageApartCode(); ImageApartCad(); ImageApartShortcut();
    DocumentApartVideo(); DocumentApartAudio(); DocumentApartArchive(); DocumentApartExecutable(); DocumentApartCode(); DocumentApartCad(); DocumentApartShortcut();
    VideoApartAudio(); VideoApartArchive(); VideoApartExecutable(); VideoApartCode(); VideoApartCad(); VideoApartShortcut();
    AudioApartArchive(); AudioApartExecutable(); AudioApartCode(); AudioApartCad(); AudioApartShortcut();
    ArchiveApartExecutable(); ArchiveApartCode(); ArchiveApartCad(); ArchiveApartShortcut();
    ExecutableApartCode(); ExecutableApartCad(); ExecutableApartShortcut();
    CodeApartCad(); CodeApartShortcut();
    CadApartShortcut();
  }


  /** Windows and Internet shortcuts have their own category here. */
  lemma ShortcutsClassified()
    ensures Classify(".lnk") == "shortcuts" && Classify(".url") == "shortcuts"
  {
    TableInverted(7, ".lnk");
    TableInverted(7, ".url");
  }

  /** Every extension of the table is a key of `EXT_TO_CATEGORY` mapped to its own category, and is classified into it. */
  lemma TableInverted(i: int, e: string)
    requires 0 <= i < |CategoryMap()| && e in CategoryMap()[i].exts
    ensures e in ExtToCategory() && ExtToCategory()[e] == CategoryMap()[i].name
    ensures Classify(e) == CategoryMap()[i].name
  {
    TableDisjoint();
    InverseOfDisjoint(CategoryMap(), i, e);
    ClassifyListed(CategoryMap(), Etc, i, e);
  }

  /** Any extension the table does not list, the empty one included, is classified as "etc". */
  lemma ClassifiedAsEtc(e: string)
    requires forall i :: 0 <= i < |CategoryMap()| ==> e !in CategoryMap()[i].exts
    ensures Classify(e) == Etc
  {
    ClassifyUnlisted(CategoryMap(), Etc, e);
  }

  /** The category of an entry name: its suffix, lower-cased, looked up in the table. */
  function CategoryOf(name: string): string
  {
    Classify(Lower(Suffix(name)))
  }

  /** The only filter of `categorize_files`: a regular file. */
  predicate IsFile(e: Entry)
  {
    e.isFile
  }

  /** The regular files of the listing, each with its category, in iteration order. */
  function FileItems(listing: seq<Entry>): seq<Item>
  {
    Items(listing, IsFile, CategoryOf)
  }

  /** One printed category: its name, the count in its heading, and its names in printed order. */
  datatype Section = Section(category: string, count: nat, names: seq<string>)

  /** What `categorize_files` prints. */
  datatype Listing =
    | PathNotFound
    | NoFiles
    | Report(total: nat, sections: seq<Section>)

  /** The block printed for category `c`: `files = sorted(grouped[c])` and `len(files)`. */
  function SectionOf(g: Grouping, c: string): Section
  {
    var names := Sort(Lookup(g, c));
    Section(c, |names|, names)
  }

  /** The blocks for the given keys, in that order. */
  function Sections(g: Grouping, keys: seq<string>): seq<Section>
  {
    seq(|keys|, i requires 0 <= i < |keys| => SectionOf(g, keys[i]))
  }

  /** The whole listing: missing folder, no regular file, or the total and the sections in sorted key order. */
  function Categorize(present: bool, listing: seq<Entry>): Listing
  {
    if !present then PathNotFound
    else
      var g := GroupAll(FileItems(listing));
      if g == [] then NoFiles else Report(Total(g), Sections(g, Sort(Keys(g))))
  }

  /** The grouping loop of `categorize_files`: every regular file, in iteration order, appended to the list of its category. */
  method GroupFiles(listing: seq<Entry>) returns (grouped: Grouping)
    ensures grouped == GroupAll(FileItems(listing))
  {
    grouped := [];
    var i := 0;
    while i < |listing|
      invariant 0 <= i <= |listing|
      invariant grouped == GroupAll(FileItems(listing[..i]))
    {
      var entry := listing[i];
      GroupAllItemsStep(listing, IsFile, CategoryOf, i);
      i := i + 1;
      if !entry.isFile {
        continue;
      }
      var ext := Lower(Suffix(entry.name));
      var category := Get(ExtToCategory(), ext, Etc);
      grouped := Append(grouped, category, entry.name);
    }
    assert listing[..|listing|] == listing;
  }

  /**
   * `categorize_files`, with whether the desktop folder exists and the
   * order `iterdir` yields its entries in as parameters.
   */
  method CategorizeFiles(present: bool, listing: seq<Entry>) returns (o: Listing)
    ensures o == Categorize(present, listing)
  {
    if !present {
      return PathNotFound;
    }
    var grouped := GroupFiles(listing);
    if grouped == [] {
      return NoFiles;
    }
    var total := Total(grouped);
    var sections := PrintSections(grouped, Sort(Keys(grouped)));
    o := Report(total, sections);
  }

  /** The printing loop of `categorize_files`: for each key in the given order, its sorted names and their count. */
  method PrintSections(grouped: Grouping, keys: seq<string>) returns (sections: seq<Section>)
    ensures sections == Sections(grouped, keys)
  {
    sections := [];
    var k := 0;
    while k < |keys|
      invariant 0 <= k <= |keys|
      invariant |sections| == k
      invariant forall j :: 0 <= j < k ==> sections[j] == SectionOf(grouped, keys[j])
    {
      var files := Sort(Lookup(grouped, keys[k]));
      sections := sections + [Section(keys[k], |files|, files)];
      k := k + 1;
    }
    assert sections == Sections(grouped, keys);
  }

  /** A missing folder is reported before anything is scanned; a folder without regular files gives "No files found". */
  lemma CategorizeStops(present: bool, listing: seq<Entry>)
    ensures Categorize(present, listing) == PathNotFound <==> !present
    ensures Categorize(present, listing) == NoFiles <==> present && forall j :: 0 <= j < |listing| ==> !listing[j].isFile
  {
    GroupedShape(listing, IsFile, CategoryOf);
  }

  /** The printed total is the number of regular files in the folder. */
  lemma ReportTotal(present: bool, listing: seq<Entry>)
    ensures Categorize(present, listing).Report? ==> Categorize(present, listing).total == CountKept(listing, IsFile)
  {
    GroupedShape(listing, IsFile, CategoryOf);
  }

  /** The sorted keys of a grouping: ascending, each once, and exactly its keys. */
  lemma SortedKeys(g: Grouping)
    requires UniqueCategories(g)
    ensures Sorted(Sort(Keys(g))) && NoDup(Sort(Keys(g)))
    ensures forall c :: c in Sort(Keys(g)) <==> IsKey(g, c)
  {
    KeysAreKeys(g);
    SortSorted(Keys(g));
    SortNoDup(Keys(g));
    SortPermutes(Keys(g));
    forall c
      ensures c in Sort(Keys(g)) <==> c in Keys(g)
    {
      assert c in Sort(Keys(g)) <==> c in multiset(Sort(Keys(g)));
      assert c in Keys(g) <==> c in multiset(Keys(g));
    }
  }

  /** The blocks of a grouping come in strictly ascending category order, one per key. */
  lemma SectionsByKey(g: Grouping, c: string)
    requires UniqueCategories(g)
    ensures var sections := Sections(g, Sort(Keys(g)));
      && (forall i, j :: 0 <= i < j < |sections| ==>
            Leq(sections[i].category, sections[j].category) && sections[i].category != sections[j].category)
      && ((exists i :: 0 <= i < |sections| && sections[i].category == c) <==> IsKey(g, c))
  {
    var ks := Sort(Keys(g));
    SortedKeys(g);
    if IsKey(g, c) {
      var i :| 0 <= i < |ks| && ks[i] == c;
      assert Sections(g, ks)[i].category == c;
    }
  }

  /** A category is a key exactly when some regular file of the folder has it. */
  lemma FileCategory(listing: seq<Entry>, c: string)
    ensures IsKey(GroupAll(FileItems(listing)), c)
        <==> exists j :: 0 <= j < |listing| && listing[j].isFile && CategoryOf(listing[j].name) == c
  {
    var g := GroupAll(FileItems(listing));
    GroupedShape(listing, IsFile, CategoryOf);
    if IsKey(g, c) {
      var x := Lookup(g, c)[0];
      GroupedMember(listing, IsFile, CategoryOf, c, x);
      var j :| 0 <= j < |listing| && listing[j].name == x && IsFile(listing[j]);
      assert listing[j].isFile && CategoryOf(listing[j].name) == c;
    }
    if exists j :: 0 <= j < |listing| && listing[j].isFile && CategoryOf(listing[j].name) == c {
      var j :| 0 <= j < |listing| && listing[j].isFile && CategoryOf(listing[j].name) == c;
      assert IsFile(listing[j]);
      GroupedMember(listing, IsFile, CategoryOf, c, listing[j].name);
    }
  }

  /**
   * The categories are printed in strictly ascending order, and they are
   * exactly the categories of the folder's regular files.
   */
  lemma ReportCategories(present: bool, listing: seq<Entry>, c: string)
    ensures var o := Categorize(present, listing);
      o.Report? ==>
        && (forall i, j :: 0 <= i < j < |o.sections| ==>
              Leq(o.sections[i].category, o.sections[j].category) && o.sections[i].category != o.sections[j].category)
        && ((exists i :: 0 <= i < |o.sections| && o.sections[i].category == c)
            <==> exists j :: 0 <= j < |listing| && listing[j].isFile && CategoryOf(listing[j].name) == c)
  {
    var g := GroupAll(FileItems(listing));
    GroupedShape(listing, IsFile, CategoryOf);
    SectionsByKey(g, c);
    FileCategory(listing, c);
  }

  /**
   * Each block prints its names in ascending order under the count of
   * them, and holds exactly the regular files of its category, each once
   * when the folder names each entry once.
   */
  lemma ReportSection(present: bool, listing: seq<Entry>, i: int, x: string)
    ensures var o := Categorize(present, listing);
      o.Report? && 0 <= i < |o.sections| ==>
        && Sorted(o.sections[i].names) && o.sections[i].count == |o.sections[i].names|
        && (x in o.sections[i].names
            <==> (exists j :: 0 <= j < |listing| && listing[j].name == x && listing[j].isFile) && CategoryOf(x) == o.sections[i].category)
        && (DistinctEntries(listing) ==> NoDup(o.sections[i].names))
  {
    var o := Categorize(present, listing);
    if o.Report? && 0 <= i < |o.sections| {
      var items := FileItems(listing);
      var g := GroupAll(items);
      var c := Sort(Keys(g))[i];
      var files := Lookup(g, c);
      assert o.sections[i].names == Sort(files);
      SortSorted(files);
      SortPermutes(files);
      assert x in Sort(files) <==> x in multiset(Sort(files));
      assert x in files <==> x in multiset(files);
      GroupedMember(listing, IsFile, CategoryOf, c, x);
      if DistinctEntries(listing) {
        ItemsDistinct(listing, IsFile, CategoryOf);
        GroupAllDistinct(items);
        SortNoDup(files);
      }
    }
  }

  /** No name is printed under two categories. */
  lemma ReportNameOnce(present: bool, listing: seq<Entry>, x: string, i: int, j: int)
    requires Categorize(present, listing).Report?
    requires 0 <= i < |Categorize(present, listing).sections| && 0 <= j < |Categorize(present, listing).sections|
    requires x in Categorize(present, listing).sections[i].names && x in Categorize(present, listing).sections[j].names
    ensures i == j
  {
    ReportSection(present, listing, i, x);
    ReportSection(present, listing, j, x);
    ReportCategories(present, listing, CategoryOf(x));
  }

  /** The sum of the counts printed in the block headings. */
  function SumCounts(sections: seq<Section>): nat
  {
    if sections == [] then 0 else SumCounts(sections[..|sections| - 1]) + sections[|sections| - 1].count
  }

  lemma {:induction false} SectionsCount(g: Grouping, ks: seq<string>)
    ensures SumCounts(Sections(g, ks)) == KeyedTotal(g, ks)
  {
    if ks != [] {
      var p := ks[..|ks| - 1];
      SectionsCount(g, p);
      assert Sections(g, ks)[..|ks| - 1] == Sections(g, p);
      var files := Lookup(g, ks[|ks| - 1]);
      SortPermutes(files);
      assert |Sort(files)| == |multiset(Sort(files))| == |multiset(files)| == |files|;
    }
  }

  /** The counts in the block headings add up to the printed total. */
  lemma ReportCountsAddUp(present: bool, listing: seq<Entry>)
    ensures Categorize(present, listing).Report? ==> SumCounts(Categorize(present, listing).sections) == Categorize(present, listing).total
  {
    if present {
      var g := GroupAll(FileItems(listing));
      GroupedShape(listing, IsFile, CategoryOf);
      SectionsCount(g, Sort(Keys(g)));
      SortPermutes(Keys(g));
      KeyedTotalPermutation(g, Sort(Keys(g)), Keys(g));
      KeyedTotalOfKeys(g);
    }
  }

  /** No row lists ".ini". */
  lemma IniUnlisted()
    ensures Classify(".ini") == Etc
  {
    var ext := ".ini";
    assert ext !in ImageExts() && ext !in DocumentExts() && ext !in VideoExts();
    assert ext !in AudioExts() && ext !in ArchiveExts() && ext !in ExecutableExts();
    assert ext !in CodeExts() && ext !in ShortcutExts() && ext !in CadExts();
    ClassifiedAsEtc(ext);
  }

  /** There is no skip list here: "desktop.ini" is a regular file with the unlisted suffix ".ini", so it is printed under "etc". */
  lemma DesktopIniIsEtc()
    ensures IsFile(Entry("desktop.ini", true)) && CategoryOf("desktop.ini") == Etc
  {
    var ext := ".ini";
    SuffixAt("desktop.ini", 7);
    assert Suffix("desktop.ini") == ext;
    forall k | 0 <= k < |ext|
      ensures Lower(ext)[k] == ext[k]
    {
      LowerAt(ext, k);
    }
    assert Lower(ext) == ext;
    IniUnlisted();
  }
}
