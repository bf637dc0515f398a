/**
 * `main` of the organising variant: stop when the desktop folder is
 * missing, scan it, stop when nothing is to be moved, and move files only
 * when the answer to the prompt, stripped and lower-cased, is "y".
 */
module OrganizeMain {
  import opened PathNames
  import opened Grouping
  import opened OrganizeDesktop
  import opened Mover

  /** `answer.strip().lower() == "y"`. */
  predicate Confirmed(answer: string)
  {
    Lower(Strip(answer)) == "y"
  }

  lemma YIsNotSpace()
    ensures 'y' !in Whitespace && 'Y' !in Whitespace
  {
  }

  /** The answers that confirm are exactly "y" or "Y" with any whitespace before and after. */
  lemma ConfirmedIff(answer: string)
    ensures Confirmed(answer) <==> Padded(answer, 'y', Whitespace) || Padded(answer, 'Y', Whitespace)
  {
    LowerIsY(Strip(answer));
    YIsNotSpace();
    StripToOne(answer, 'y', Whitespace);
    StripToOne(answer, 'Y', Whitespace);
  }

  /** "y" or "Y" between spaces and a line break confirms. */
  lemma ConfirmedPaddedY()
    ensures Confirmed(" Y\n")
  {
    assert " Y\n" == " " + ['Y'] + "\n";
    assert AllIn(" ", Whitespace) && AllIn("\n", Whitespace);
    ConfirmedIff(" Y\n");
  }

  /** "yes" is not "y": only the single letter confirms. */
  lemma NotConfirmedYes()
    ensures !Confirmed("yes")
  {
    assert 'y' !in Whitespace && 's' !in Whitespace;
    assert LeadingRun("yes", Whitespace) == 0;
    assert TrailingRun("yes", Whitespace) == 0;
    LowerIsY(Strip("yes"));
  }

  /** How `main` ends. */
  datatype Outcome =
    | PathNotFound
    | NothingToMove
    | Cancelled(grouped: Grouping)
    | Finished(grouped: Grouping, moved: nat, skipped: nat, stats: map<string, nat>)

  /**
   * `main`, with whether the desktop folder exists, the order `iterdir`
   * yields its entries in, and the line the user types as parameters.
   * The desktop changes only on a confirmed run with something to move,
   * and then exactly as `move_files` changes it.
   */
  method Organize(desk: Desktop, present: bool, listing: seq<Entry>, answer: string) returns (o: Outcome)
    modifies desk
    ensures !present ==> o == PathNotFound
    ensures present && GroupAll(ScanItems(listing)) == [] ==> o == NothingToMove
    ensures present && GroupAll(ScanItems(listing)) != [] && !Confirmed(answer)
      ==> o == Cancelled(GroupAll(ScanItems(listing)))
    ensures o.Finished? <==> present && GroupAll(ScanItems(listing)) != [] && Confirmed(answer)
    ensures !o.Finished? ==> desk.files == old(desk.files) && desk.dirs == old(desk.dirs)
    ensures o.Finished? ==> (o.grouped == GroupAll(ScanItems(listing))
      && Run(desk.files, desk.dirs, o.moved, o.skipped, o.stats) == MoveAll(Start(old(desk.files), old(desk.dirs)), o.grouped))
  {
    if !present {
      return PathNotFound;
    }
    var grouped := ScanDesktop(listing);
    if grouped == [] {
      return NothingToMove;
    }
    if Lower(Strip(answer)) == "y" {
      var moved, skipped, stats := MoveFiles(desk, grouped);
      o := Finished(grouped, moved, skipped, stats);
    } else {
      o := Cancelled(grouped);
    }
  }

  /**
   * A confirmed run moves every kept file whose category folder lacks its
   * name into that folder, leaves every other top-level file where it was,
   * and counts each kept file once, as moved or as skipped.
   */
  lemma OrganizeEffect(files: set<string>, dirs: map<string, set<string>>, listing: seq<Entry>, x: string)
    ensures var g := GroupAll(ScanItems(listing));
      var r := MoveAll(Start(files, dirs), g);
      && r.moved + r.skipped == CountKept(listing, Kept)
      && (x in r.files <==> x in files && !((exists j :: 0 <= j < |listing| && listing[j].name == x && Kept(listing[j]))
                                            && x !in Dest(dirs, CategoryOf(x))))
  {
    var g := GroupAll(ScanItems(listing));
    ScanShape(listing);
    MoveFilesCounters(files, dirs, g);
    MoveAllEffect(Start(files, dirs), g);
    if Leaves(dirs, g, x) {
      var c :| x in Lookup(g, c) && x !in Dest(dirs, c);
      ScanGroupMember(listing, c, x);
    }
    ScanGroupMember(listing, CategoryOf(x), x);
  }
}
