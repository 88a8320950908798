/** The data logic of the dashboard in src/App.tsx, lines 7-35: the record
    list, the folder choices, the average score, the search and folder
    filter, and the clamped selection. */
module App {
  import opened SeqUtil
  import opened Types

  /** The records the dashboard shows (lines 7-13). */
  const Records: seq<QRRecord> := [
    QRRecord("Company Website", "https://example.com", URL, "Marketing", "Feb 15", 87),
    QRRecord("Event WiFi Info", "Network: ConfWifi_2025", Text, "Events", "Feb 10", 92),
    QRRecord("Product Catalogue", "https://shop.example.com/catalogue", URL, "Retail", "Jan 28", 79),
    QRRecord("Business Card", "https://jorge.me/contact", URL, "Personal", "Jan 5", 95),
    QRRecord("Restaurant Menu", "https://bistro.local/menu", URL, "—", "Dec 20", 68)
  ]

  /** The entry that selects every folder. */
  const AllFoldersLabel: string := "All folders"

  /** The placeholder folder of a record filed nowhere (an em dash). */
  const NoFolder: string := "—"

  // ---------------------------------------------------------------------
  // Folder choices (line 15)

  /** The records' folders in record order, placeholders dropped: the
      `map` and `filter` of line 15. */
  function FolderNames(rs: seq<QRRecord>): (fs: seq<string>)
    ensures forall f :: f in fs <==> f != NoFolder && exists r :: r in rs && r.folder == f
  {
    if rs == [] then []
    else
      var last := rs[|rs| - 1];
      assert forall r :: r in rs <==> r in rs[..|rs| - 1] || r == last;
      FolderNames(rs[..|rs| - 1]) + (if last.folder != NoFolder then [last.folder] else [])
  }

  /** The elements of `s` in the order of their first occurrence, each once:
      what spreading `new Set(s)` yields. */
  function Distinct<T(==, !new)>(s: seq<T>): (d: seq<T>)
    ensures forall x :: x in d <==> x in s
    ensures NoDuplicates(d)
  {
    if s == [] then []
    else if s[|s| - 1] in Distinct(s[..|s| - 1]) then Distinct(s[..|s| - 1])
    else Distinct(s[..|s| - 1]) + [s[|s| - 1]]
  }

  /** `ALL_FOLDERS`: the entry for every folder, then the records' folders. */
  function AllFolders(rs: seq<QRRecord>): seq<string> {
    [AllFoldersLabel] + Distinct(FolderNames(rs))
  }

  /** The list opens with "All folders", never offers the placeholder, and
      offers exactly the folders some record is filed in. */
  lemma AllFoldersContents(rs: seq<QRRecord>)
    ensures AllFolders(rs)[0] == AllFoldersLabel
    ensures NoFolder !in AllFolders(rs)
    ensures forall f :: f in AllFolders(rs)[1..] <==> f != NoFolder && exists r :: r in rs && r.folder == f
  {
    assert AllFoldersLabel[0] != NoFolder[0];
    assert AllFolders(rs)[1..] == Distinct(FolderNames(rs));
  }

  /** No entry repeats exactly when no record is filed in a folder that is
      itself named "All folders". */
  lemma AllFoldersNoDuplicates(rs: seq<QRRecord>)
    ensures NoDuplicates(AllFolders(rs)) <==> forall r :: r in rs ==> r.folder != AllFoldersLabel
  {
    var a := AllFolders(rs);
    var d := Distinct(FolderNames(rs));
    assert a == [AllFoldersLabel] + d;
    assert AllFoldersLabel != NoFolder by {
      assert AllFoldersLabel[0] != NoFolder[0];
    }
    if exists r :: r in rs && r.folder == AllFoldersLabel {
      var r :| r in rs && r.folder == AllFoldersLabel;
      assert r.folder in FolderNames(rs);
      var k :| 0 <= k < |d| && d[k] == AllFoldersLabel;
      assert a[0] == a[k + 1];
    } else {
      assert AllFoldersLabel !in d;
      forall i, j | 0 <= i < j < |a|
        ensures a[i] != a[j]
      {
        assert a[j] == d[j - 1];
        if i > 0 {
          assert a[i] == d[i - 1];
        }
      }
    }
  }

  /** Two folders are offered in the order in which records first use them. */
  lemma {:induction false} DistinctKeepsFirstOccurrenceOrder<T(!new)>(s: seq<T>, x: T, y: T)
    requires x in s && y in s
    ensures FirstIndex(Distinct(s), x) < FirstIndex(Distinct(s), y) <==> FirstIndex(s, x) < FirstIndex(s, y)
  {
    var p, z := s[..|s| - 1], s[|s| - 1];
    assert s == p + [z];
    var dp := Distinct(p);
    if x in p && y in p {
      DistinctKeepsFirstOccurrenceOrder(p, x, y);
      FirstIndexSnoc(p, z, x);
      FirstIndexSnoc(p, z, y);
      if z !in dp {
        FirstIndexSnoc(dp, z, x);
        FirstIndexSnoc(dp, z, y);
      }
    } else if x in p {
      // y is new: it is the last element of both
      assert y == z && z !in dp;
      FirstIndexSnoc(p, z, x);
      FirstIndexNew(p, z);
      FirstIndexSnoc(dp, z, x);
      FirstIndexNew(dp, z);
    } else if y in p {
      assert x == z && z !in dp;
      FirstIndexSnoc(p, z, y);
      FirstIndexNew(p, z);
      FirstIndexSnoc(dp, z, y);
      FirstIndexNew(dp, z);
    } else {
      assert x == z && y == z;
    }
  }

  /** The folder of every record, in record order: the `map` of line 15. */
  function Folders(rs: seq<QRRecord>): (fs: seq<string>)
    ensures |fs| == |rs|
    ensures forall i :: 0 <= i < |rs| ==> fs[i] == rs[i].folder
  {
    if rs == [] then [] else Folders(rs[..|rs| - 1]) + [rs[|rs| - 1].folder]
  }

  /** A folder occurs in the map exactly when some record is filed in it. */
  lemma FoldersUsed(rs: seq<QRRecord>)
    ensures forall f :: f in Folders(rs) <==> exists r :: r in rs && r.folder == f
  {
    var fs := Folders(rs);
    forall f | f in fs ensures exists r :: r in rs && r.folder == f {
      var i :| 0 <= i < |fs| && fs[i] == f;
      assert rs[i] in rs;
    }
    forall f | exists r :: r in rs && r.folder == f ensures f in fs {
      var r :| r in rs && r.folder == f;
      var i :| 0 <= i < |rs| && rs[i] == r;
      assert fs[i] == f;
    }
  }

  /** Dropping the placeholder keeps the folders in the order of the first
      record filed in each. */
  lemma {:induction false} FolderNamesKeepRecordOrder(rs: seq<QRRecord>, x: string, y: string)
    requires x in FolderNames(rs) && y in FolderNames(rs)
    ensures x in Folders(rs) && y in Folders(rs)
    ensures FirstIndex(FolderNames(rs), x) < FirstIndex(FolderNames(rs), y)
        <==> FirstIndex(Folders(rs), x) < FirstIndex(Folders(rs), y)
  {
    var p, last := rs[..|rs| - 1], rs[|rs| - 1];
    var np, fp, z := FolderNames(p), Folders(p), last.folder;
    assert Folders(rs) == fp + [z];
    FoldersUsed(p);
    if z == NoFolder || z in np {
      // the last record adds no new folder; x and y were both used before
      var tail := if z != NoFolder then [z] else [];
      assert FolderNames(rs) == np + tail;
      assert x in np && y in np;
      FolderNamesKeepRecordOrder(p, x, y);
      FirstIndexSnoc(fp, z, x);
      FirstIndexSnoc(fp, z, y);
      if z != NoFolder {
        FirstIndexSnoc(np, z, x);
        FirstIndexSnoc(np, z, y);
      } else {
        assert FolderNames(rs) == np;
      }
    } else {
      // the last record brings a folder no earlier record uses
      assert FolderNames(rs) == np + [z];
      assert z !in fp;
      FirstIndexNew(np, z);
      FirstIndexNew(fp, z);
      if x in np && y in np {
        FolderNamesKeepRecordOrder(p, x, y);
        FirstIndexSnoc(fp, z, x);
        FirstIndexSnoc(fp, z, y);
        FirstIndexSnoc(np, z, x);
        FirstIndexSnoc(np, z, y);
      } else if x in np {
        assert y == z;
        FolderNamesKeepRecordOrder(p, x, x);
        FirstIndexSnoc(fp, z, x);
        FirstIndexSnoc(np, z, x);
      } else if y in np {
        assert x == z;
        FolderNamesKeepRecordOrder(p, y, y);
        FirstIndexSnoc(fp, z, y);
        FirstIndexSnoc(np, z, y);
      } else {
        assert x == z && y == z;
      }
    }
  }

  /** `ALL_FOLDERS` offers the folders, after "All folders", in the order in
      which the records first use them. */
  lemma AllFoldersFollowRecordOrder(rs: seq<QRRecord>, x: string, y: string)
    requires x in AllFolders(rs)[1..] && y in AllFolders(rs)[1..]
    ensures x in Folders(rs) && y in Folders(rs)
    ensures FirstIndex(AllFolders(rs)[1..], x) < FirstIndex(AllFolders(rs)[1..], y)
        <==> FirstIndex(Folders(rs), x) < FirstIndex(Folders(rs), y)
  {
    assert AllFolders(rs)[1..] == Distinct(FolderNames(rs));
    DistinctKeepsFirstOccurrenceOrder(FolderNames(rs), x, y);
    FolderNamesKeepRecordOrder(rs, x, y);
  }

  /** The named folders of the dashboard's own records, in record order. */
  lemma RecordsFolderNames()
    ensures FolderNames(Records) == ["Marketing", "Events", "Retail", "Personal"]
  {
    var r := Records;
    assert r[..1][..0] == [];
    assert r[..2][..1] == r[..1] && r[..3][..2] == r[..2] && r[..4][..3] == r[..3] && r[..5][..4] == r[..4];
    assert FolderNames(r[..1]) == ["Marketing"];
    assert FolderNames(r[..2]) == ["Marketing", "Events"];
    assert FolderNames(r[..3]) == ["Marketing", "Events", "Retail"];
    assert FolderNames(r[..4]) == ["Marketing", "Events", "Retail", "Personal"];
    assert r[4].folder == NoFolder;
    assert r[..5] == r;
  }

  /** The folder list of the dashboard's own records. */
  lemma RecordsFolders()
    ensures AllFolders(Records) == ["All folders", "Marketing", "Events", "Retail", "Personal"]
  {
    RecordsFolderNames();
    var f: seq<string> := ["Marketing", "Events", "Retail", "Personal"];
    assert f[..1][..0] == [];
    assert f[..2][..1] == f[..1] && f[..3][..2] == f[..2] && f[..4][..3] == f[..3] && f[..4] == f;
    assert Distinct(f[..1]) == ["Marketing"];
    assert Distinct(f[..2]) == ["Marketing", "Events"];
    assert Distinct(f[..3]) == ["Marketing", "Events", "Retail"];
  }

  // ---------------------------------------------------------------------
  // Average score (lines 17-20)

  /** The total score, summed left to right from 0 as the `reduce` does. */
  function ScoreSum(rs: seq<QRRecord>): int {
    if rs == [] then 0 else ScoreSum(rs[..|rs| - 1]) + rs[|rs| - 1].score
  }

  /** `avgScore`: 0 for no records, else the mean rounded half up, as
      `Math.round` does (toward positive infinity on a tie). */
  function AvgScore(rs: seq<QRRecord>): (avg: int)
    ensures rs == [] ==> avg == 0
    ensures rs != [] ==> |rs| * (2 * avg - 1) <= 2 * ScoreSum(rs) < |rs| * (2 * avg + 1)
  {
    if rs == [] then 0
    else
      var n := |rs|;
      var s := ScoreSum(rs);
      RoundHalfUp(s, n);
      (2 * s + n) / (2 * n)
  }

  /** Integer round-half-up of s / n: `q` is within one half of it. */
  lemma RoundHalfUp(s: int, n: int)
    requires n > 0
    ensures var q := (2 * s + n) / (2 * n);
      n * (2 * q - 1) <= 2 * s < n * (2 * q + 1)
  {
    var q := (2 * s + n) / (2 * n);
    var m := (2 * s + n) % (2 * n);
    assert 2 * s + n == 2 * n * q + m && 0 <= m < 2 * n;
    assert n * (2 * q - 1) == 2 * n * q - n;
    assert n * (2 * q + 1) == 2 * n * q + n;
  }

  /** Scores between two bounds sum to between |rs| times each. */
  lemma {:induction false} ScoreSumBounds(rs: seq<QRRecord>, lo: int, hi: int)
    requires forall i :: 0 <= i < |rs| ==> lo <= rs[i].score <= hi
    ensures |rs| * lo <= ScoreSum(rs) <= |rs| * hi
  {
    if rs != [] {
      ScoreSumBounds(rs[..|rs| - 1], lo, hi);
      assert |rs| * lo == (|rs| - 1) * lo + lo;
      assert |rs| * hi == (|rs| - 1) * hi + hi;
    }
  }

  /** The average lies between the lowest and the highest score. */
  lemma AvgScoreWithinBounds(rs: seq<QRRecord>, lo: int, hi: int)
    requires rs != []
    requires forall i :: 0 <= i < |rs| ==> lo <= rs[i].score <= hi
    ensures lo <= AvgScore(rs) <= hi
  {
    ScoreSumBounds(rs, lo, hi);
    RoundedWithinBounds(|rs|, ScoreSum(rs), AvgScore(rs), lo, hi);
  }

  /** A value within one half of s / n lies between any integer bounds
      of s / n. */
  lemma RoundedWithinBounds(n: int, s: int, a: int, lo: int, hi: int)
    requires n > 0
    requires n * (2 * a - 1) <= 2 * s < n * (2 * a + 1)
    requires n * lo <= s <= n * hi
    ensures lo <= a <= hi
  {
    assert n * (2 * hi) == 2 * (n * hi) && n * (2 * lo) == 2 * (n * lo);
    MulCancel(n, 2 * a - 1, 2 * hi);
    MulCancel(n, 2 * lo, 2 * a + 1);
  }

  /** Dividing both sides of an inequality by a positive factor. */
  lemma MulCancel(n: int, x: int, y: int)
    requires n > 0
    ensures n * x <= n * y ==> x <= y
    ensures n * x < n * y ==> x < y
  {
    assert n * y - n * x == n * (y - x);
  }

  /** The dashboard's own records average 84 (421 / 5 = 84.2). */
  lemma RecordsAverage()
    ensures AvgScore(Records) == 84
  {
    var r := Records;
    assert r[..1][..0] == [];
    assert r[..2][..1] == r[..1] && r[..3][..2] == r[..2] && r[..4][..3] == r[..3] && r[..5][..4] == r[..4];
    assert ScoreSum(r[..1]) == 87;
    assert ScoreSum(r[..2]) == 179;
    assert ScoreSum(r[..3]) == 258;
    assert ScoreSum(r[..4]) == 353;
    assert r[..5] == r;
    assert ScoreSum(r) == 421;
  }

  // ---------------------------------------------------------------------
  // Search and folder filter (lines 27-32)

  /** Whether record `r` is kept for the search text `query` and the
      selected folder: the lower-cased query occurs in the lower-cased label
      or content, and the folder is "All folders" or the record's own.
      `lower` stands for `toLowerCase`. */
  predicate Matches(r: QRRecord, query: string, folder: string, lower: string -> string) {
    (IsInfix(lower(query), lower(r.name)) || IsInfix(lower(query), lower(r.content)))
    && (folder == AllFoldersLabel || r.folder == folder)
  }

  /** `filtered`: the records kept, in their original order. */
  function Filtered(rs: seq<QRRecord>, query: string, folder: string, lower: string -> string)
    : (fs: seq<QRRecord>)
    ensures forall r :: r in fs <==> r in rs && Matches(r, query, folder, lower)
    ensures |fs| <= |rs|
  {
    if rs == [] then []
    else
      var last := rs[|rs| - 1];
      assert forall r :: r in rs <==> r in rs[..|rs| - 1] || r == last;
      Filtered(rs[..|rs| - 1], query, folder, lower) + (if Matches(last, query, folder, lower) then [last] else [])
  }

  /** One more record is kept at the end exactly when it matches. */
  lemma FilteredSnoc(p: seq<QRRecord>, x: QRRecord, query: string, folder: string, lower: string -> string)
    ensures Filtered(p + [x], query, folder, lower)
      == Filtered(p, query, folder, lower) + (if Matches(x, query, folder, lower) then [x] else [])
  {
    assert (p + [x])[..|p|] == p;
  }

  /** The filter keeps an order-preserving selection of the records. */
  lemma {:induction false} FilteredIsSubsequence(rs: seq<QRRecord>, query: string, folder: string, lower: string -> string)
    ensures IsSubsequence(Filtered(rs, query, folder, lower), rs)
  {
    if rs != [] {
      var p, last := rs[..|rs| - 1], rs[|rs| - 1];
      assert rs == p + [last];
      var fp := Filtered(p, query, folder, lower);
      FilteredSnoc(p, last, query, folder, lower);
      FilteredIsSubsequence(p, query, folder, lower);
      SubsequenceSnoc(fp, p, last);
      if !Matches(last, query, folder, lower) {
        assert fp + [] == fp;
      }
    }
  }

  /** Every record matches the empty search in "All folders". */
  lemma EmptyQueryMatches(r: QRRecord, lower: string -> string)
    requires lower([]) == []
    ensures Matches(r, "", AllFoldersLabel, lower)
  {
    EmptyIsInfix(lower(r.name));
  }

  /** With an empty search and "All folders" every record is shown, given
      that lower-casing the empty string leaves it empty. */
  lemma {:induction false} EmptySearchKeepsAll(rs: seq<QRRecord>, lower: string -> string)
    requires lower([]) == []
    ensures Filtered(rs, "", AllFoldersLabel, lower) == rs
  {
    if rs != [] {
      var p, last := rs[..|rs| - 1], rs[|rs| - 1];
      assert rs == p + [last];
      FilteredSnoc(p, last, "", AllFoldersLabel, lower);
      EmptySearchKeepsAll(p, lower);
      EmptyQueryMatches(last, lower);
    }
  }

  // ---------------------------------------------------------------------
  // Selection (lines 34-35)

  /** `safeIndex`: the selected position pulled back onto the last record
      when the list has shrunk below it. */
  function SafeIndex(selected: int, count: nat): (k: int)
    ensures k <= selected
    ensures selected >= 0 ==> k >= 0
    ensures count > 0 ==> k < count
    ensures 0 <= selected < count ==> k == selected
    ensures selected >= count > 0 ==> k == count - 1
  {
    var top := if 0 > count - 1 then 0 else count - 1;
    if selected < top then selected else top
  }

  /** `selectedRecord`: the record at the clamped position, or nothing when
      that position holds no record. */
  function SelectedRecord(fs: seq<QRRecord>, selected: int): (sel: Option<QRRecord>)
    ensures selected >= 0 ==> (sel.None? <==> fs == [])
    ensures selected < 0 ==> sel.None?
    ensures sel.Some? ==> sel.value == fs[SafeIndex(selected, |fs|)]
  {
    var k := SafeIndex(selected, |fs|);
    if 0 <= k < |fs| then Some(fs[k]) else None
  }
}
