/**
 * The organising variant's classifier and scanner: its Korean category
 * table, the fallback category "기타" (other), the names it never moves,
 * and `scan_desktop`, which groups the desktop's regular files by
 * category.
 */
module OrganizeDesktop {
  import opened PathNames
  import opened CategoryTable
  import opened Grouping
  import opened Extensions

  /** `CATEGORY_MAP`: images, documents, videos, music, archives, executables, code, CAD. */
  function CategoryMap(): Table
  {
    [
      Category("이미지", ImageExts()),
      Category("문서", DocumentExts()),
      Category("동영상", VideoExts()),
      Category("음악", AudioExts()),
      Category("압축파일", ArchiveExts()),
      Category("실행파일", ExecutableExts()),
      Category("코드", CodeExts()),
      Category("CAD", CadExts())
    ]
  }

  /** The category of every extension the table does not list ("other"). */
  const Other: string := "기타"

  /** `SKIP_FILES`: Windows folder-metadata files, compared after lower-casing. */
  const SkipFiles: set<string> := {"desktop.ini", "thumbs.db"}

  /** `EXT_TO_CATEGORY`, as `BuildExtToCategory` computes it from the table. */
  function ExtToCategory(): map<string, string>
  {
    Inverse(CategoryMap())
  }

  /** `EXT_TO_CATEGORY.get(ext, "기타")`. */
  function Classify(ext: string): string
  {
    ClassifyIn(CategoryMap(), Other, ext)
  }

  /** No extension of the table is listed under two categories. */
  lemma TableDisjoint()
    ensures Disjoint(CategoryMap())
  {
    ImageApartDocument(); ImageApartVideo(); ImageApartAudio(); ImageApartArchive(); ImageApartExecutable(); ImageApartCode(); ImageApartCad();
    DocumentApartVideo(); DocumentApartAudio(); DocumentApartArchive(); DocumentApartExecutable(); DocumentApartCode(); DocumentApartCad();
    VideoApartAudio(); VideoApartArchive(); VideoApartExecutable(); VideoApartCode(); VideoApartCad();
    AudioApartArchive(); AudioApartExecutable(); AudioApartCode(); AudioApartCad();
    ArchiveApartExecutable(); ArchiveApartCode(); ArchiveApartCad();
    ExecutableApartCode(); ExecutableApartCad();
    CodeApartCad();
  }


  /** Every extension of the table is a key of `EXT_TO_CATEGORY` mapped to its own category, and is classified into it. */
  lemma TableInverted(i: int, e: string)
    requires 0 <= i < |CategoryMap()| && e in CategoryMap()[i].exts
    ensures e in ExtToCategory() && ExtToCategory()[e] == CategoryMap()[i].name
    ensures Classify(e) == CategoryMap()[i].name
  {
    TableDisjoint();
    InverseOfDisjoint(CategoryMap(), i, e);
    ClassifyListed(CategoryMap(), Other, i, e);
  }

  /** Any extension the table does not list, the empty one included, is classified as "기타". */
  lemma ClassifiedAsOther(e: string)
    requires forall i :: 0 <= i < |CategoryMap()| ==> e !in CategoryMap()[i].exts
    ensures Classify(e) == Other
  {
    ClassifyUnlisted(CategoryMap(), Other, e);
  }

  /** The category of an entry name: its suffix, lower-cased, looked up in the table. */
  function CategoryOf(name: string): string
  {
    Classify(Lower(Suffix(name)))
  }

  /**
   * The filters of `scan_desktop`: a regular file, whose lower-cased name
   * is not a skip name, and whose suffix, compared without lower-casing, is
   * neither ".lnk" nor ".url".
   */
  predicate Kept(e: Entry)
  {
    e.isFile && Lower(e.name) !in SkipFiles && Suffix(e.name) != ".lnk" && Suffix(e.name) != ".url"
  }

  /** The files `scan_desktop` keeps, each with its category, in iteration order. */
  function ScanItems(listing: seq<Entry>): seq<Item>
  {
    Items(listing, Kept, CategoryOf)
  }

  /** `scan_desktop`: group the kept entries of the listing by category. */
  method ScanDesktop(listing: seq<Entry>) returns (grouped: Grouping)
    ensures grouped == GroupAll(ScanItems(listing))
  {
    grouped := [];
    var i := 0;
    while i < |listing|
      invariant 0 <= i <= |listing|
      invariant grouped == GroupAll(ScanItems(listing[..i]))
    {
      var entry := listing[i];
      GroupAllItemsStep(listing, Kept, CategoryOf, i);
      i := i + 1;
      if !entry.isFile {
        continue;
      }
      if Lower(entry.name) in SkipFiles {
        continue;
      }
      if Suffix(entry.name) == ".lnk" || Suffix(entry.name) == ".url" {
        continue;
      }
      var ext := Lower(Suffix(entry.name));
      var category := Get(ExtToCategory(), ext, Other);
      grouped := Append(grouped, category, entry.name);
    }
    assert listing[..|listing|] == listing;
  }

  /**
   * A name is in the group of `c` exactly when some kept entry has that
   * name and `c` is the category of its lower-cased suffix.
   */
  lemma ScanGroupMember(listing: seq<Entry>, c: string, x: string)
    ensures x in Lookup(GroupAll(ScanItems(listing)), c)
        <==> (exists j :: 0 <= j < |listing| && listing[j].name == x && Kept(listing[j])) && CategoryOf(x) == c
  {
    GroupedMember(listing, Kept, CategoryOf, c, x);
  }

  /** Directories (an earlier run's category folders among them) and other non-files are never grouped. */
  lemma ScanSkipsNonFiles(listing: seq<Entry>, c: string, x: string)
    requires forall j :: 0 <= j < |listing| && listing[j].name == x ==> !listing[j].isFile
    ensures x !in Lookup(GroupAll(ScanItems(listing)), c)
  {
    ScanGroupMember(listing, c, x);
  }

  /** "desktop.ini" and "thumbs.db" are never grouped, in any letter case. */
  lemma ScanSkipsSkipFiles(listing: seq<Entry>, c: string, x: string)
    requires Lower(x) in SkipFiles
    ensures x !in Lookup(GroupAll(ScanItems(listing)), c)
  {
    ScanGroupMember(listing, c, x);
  }

  /** Files whose suffix is exactly ".lnk" or ".url" are never grouped. */
  lemma ScanSkipsShortcuts(listing: seq<Entry>, c: string, x: string)
    requires Suffix(x) == ".lnk" || Suffix(x) == ".url"
    ensures x !in Lookup(GroupAll(ScanItems(listing)), c)
  {
    ScanGroupMember(listing, c, x);
  }

  /**
   * The grouping `main` checks and `preview` counts: one key per category
   * that occurs, no empty group, and a total equal to the number of kept
   * entries.
   */
  lemma ScanShape(listing: seq<Entry>)
    ensures UniqueCategories(GroupAll(ScanItems(listing))) && NoEmptyGroup(GroupAll(ScanItems(listing)))
    ensures Total(GroupAll(ScanItems(listing))) == CountKept(listing, Kept)
    ensures GroupAll(ScanItems(listing)) == [] <==> forall j :: 0 <= j < |listing| ==> !Kept(listing[j])
  {
    GroupedShape(listing, Kept, CategoryOf);
  }

  /** Every kept file of a directory listing is in the group of its category and in no other group. */
  lemma ScanExactlyOneGroup(listing: seq<Entry>, j: int, c: string)
    requires 0 <= j < |listing| && Kept(listing[j])
    ensures listing[j].name in Lookup(GroupAll(ScanItems(listing)), c) <==> c == CategoryOf(listing[j].name)
  {
    ScanGroupMember(listing, c, listing[j].name);
  }

  /** When the listing names each entry once, so does the grouping: no list repeats a name and no name is in two lists. */
  lemma ScanDistinct(listing: seq<Entry>)
    requires DistinctEntries(listing)
    ensures DistinctFiles(GroupAll(ScanItems(listing)))
  {
    ItemsDistinct(listing, Kept, CategoryOf);
    GroupAllDistinct(ScanItems(listing));
  }

  lemma LowerDotLnk()
    ensures Lower(".LNK") == ".lnk"
  {
    var ext := ".LNK";
    forall k | 0 <= k < |ext|
      ensures Lower(ext)[k] == ".lnk"[k]
    {
      LowerAt(ext, k);
    }
  }

  /** The shortcut test does not lower-case: "X.LNK" is kept, and as the table has no ".lnk" it goes to "기타". */
  lemma UpperCaseShortcutKept()
    ensures Kept(Entry("X.LNK", true)) && CategoryOf("X.LNK") == Other
  {
    SuffixAt("X.LNK", 1);
    LowerDotLnk();
    assert ".lnk" in ShortcutExts();
    ImageApartShortcut(); DocumentApartShortcut(); VideoApartShortcut(); AudioApartShortcut();
    ArchiveApartShortcut(); ExecutableApartShortcut(); CodeApartShortcut(); CadApartShortcut();
    ClassifiedAsOther(".lnk");
  }

  /** The skip test does lower-case: "DESKTOP.INI" is left where it is. */
  lemma UpperCaseSkipFileSkipped()
    ensures !Kept(Entry("DESKTOP.INI", true))
  {
    var name := "DESKTOP.INI";
    forall k | 0 <= k < |name|
      ensures Lower(name)[k] == "desktop.ini"[k]
    {
      LowerAt(name, k);
    }
    assert Lower(name) == "desktop.ini";
  }
}
