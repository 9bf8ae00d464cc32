/**
 * The asset checks of the performance script: which file names are images, which contents
 * look minified, and the image-directory scan that counts images, WebP images and large
 * images and collects recommendations.
 */
module Performance {
  import opened Js

  const ImageExtensions: seq<string> := [".jpg", ".jpeg", ".png", ".gif", ".webp", ".svg"]
  const WebPExtension := ".webp"

  /** An image is large when it has strictly more bytes than this. */
  const LargeImageBytes := 500000

  /** `isImageFile(filename)`: some one of the six extensions ends the lower-cased name. */
  predicate IsImageFile(filename: string)
  {
    exists k :: 0 <= k < |ImageExtensions| && EndsWith(ToLower(filename), ImageExtensions[k])
  }

  /** The image test ignores case: a name and its lower-cased form are classified alike, so a
      `.WEBP` file is an image although the scan's own WebP test, which is case-sensitive, does
      not count it as WebP. */
  lemma ImageFileIgnoresCase(filename: string)
    ensures IsImageFile(ToLower(filename)) == IsImageFile(filename)
    ensures EndsWith(filename, WebPExtension) ==> IsImageFile(filename)
  {
    ToLowerIdempotent(filename);
    if EndsWith(filename, WebPExtension) {
      var l := ToLower(filename);
      var n := |filename|;
      assert forall k :: n - 5 <= k < n ==> l[k] == filename[k];
      assert l[n - 5..] == filename[n - 5..];
      assert EndsWith(l, ImageExtensions[4]);
    }
  }

  /** `content.split('\n').length`: one more line than there are line feeds. */
  function LineCount(content: string): (n: nat)
    ensures n >= 1
  {
    CountChar(content, '\n') + 1
  }

  /** `isMinified` on the file's content, in integers: the length exceeds 100 times the number
      of lines. */
  function IsMinified(content: string): bool
  {
    JsLength(content) > 100 * LineCount(content)
  }

  /** The integer test is the script's average: more than 100 UTF-16 units per line. */
  lemma IsMinifiedIsAverage(content: string)
    ensures IsMinified(content) <==> (JsLength(content) as real) / (LineCount(content) as real) > 100.0
  {
    var len, lines := JsLength(content), LineCount(content);
    assert (100 * lines) as real == 100.0 * (lines as real);
    AverageAbove(len as real, lines as real);
  }

  lemma AverageAbove(len: real, lines: real)
    requires lines > 0.0
    ensures len / lines > 100.0 <==> len > 100.0 * lines
  {
    var q := len / lines;
    assert q * lines == len;
    if q > 100.0 {
      assert (q - 100.0) * lines > 0.0;
    } else {
      assert (100.0 - q) * lines >= 0.0;
    }
  }

  /** A file without line feeds is one line, so it counts as minified exactly when it is longer
      than 100 units. */
  lemma SingleLineMinified(content: string)
    requires '\n' !in content
    ensures IsMinified(content) <==> JsLength(content) > 100
  {
  }

  /** A directory listing: files with their size in bytes, and sub-directories with theirs. */
  datatype Entry = File(name: string, size: int) | Dir(name: string, children: seq<Entry>)

  datatype Recommendation =
    | CompressImage(file: string, size: int)       // "Image <file> is <size>KB - consider compression"
    | ConvertToWebP                                // "Consider converting images to WebP format …"
    | CreateImagesDirectory                        // "Create images directory structure: …"

  datatype ImageStatus = Good | NeedsOptimization

  /** `results.assets.images`: never filled, no directory, or the counts of a scan. */
  datatype ImagesReport =
    | NotAnalyzed
    | NoImagesDirectory
    | Scanned(total: nat, webpCount: nat, largeImages: nat, status: ImageStatus)

  /** The three counters of one scan. */
  datatype Tally = Tally(total: nat, webp: nat, large: nat)

  predicate IsLargeImage(e: Entry)
  {
    e.File? && IsImageFile(e.name) && e.size > LargeImageBytes
  }

  /** The counters after the scan's loop has seen `entries`: only the files of this directory
      count; a sub-directory's images are counted by the sub-directory's own scan. */
  function TallyOf(entries: seq<Entry>): (t: Tally)
    ensures t.webp <= t.total && t.large <= t.total
  {
    if entries == [] then Tally(0, 0, 0)
    else if entries[|entries| - 1].Dir? then TallyOf(entries[..|entries| - 1])
    else FileStep(TallyOf(entries[..|entries| - 1]), entries[|entries| - 1])
  }

  /** The counters after the loop sees one file: an image is counted, as WebP when its name
      ends with `.webp` exactly, and as large above the threshold. */
  function FileStep(t: Tally, e: Entry): Tally
    requires e.File?
  {
    if IsImageFile(e.name) then
      Tally(t.total + 1,
            t.webp + (if EndsWith(e.name, WebPExtension) then 1 else 0),
            t.large + (if e.size > LargeImageBytes then 1 else 0))
    else t
  }

  /** The recommendations the loop adds for one file. */
  function FileRecs(e: Entry): seq<Recommendation>
    requires e.File?
  {
    if IsLargeImage(e) then [CompressImage(e.name, e.size)] else []
  }

  /** The report assigned at the end of a scan. */
  function Report(t: Tally): (r: ImagesReport)
    ensures r.Scanned? && r.total == t.total && r.webpCount == t.webp && r.largeImages == t.large
    ensures r.status == Good <==> t.large == 0
  {
    Scanned(t.total, t.webp, t.large, if t.large == 0 then Good else NeedsOptimization)
  }

  /** The WebP advice closing a scan: given when images were found and none is WebP. */
  function WebPAdvice(t: Tally): (r: seq<Recommendation>)
    ensures r == [ConvertToWebP] <==> t.webp == 0 && t.total > 0
    ensures r == [] <==> !(t.webp == 0 && t.total > 0)
  {
    if t.webp == 0 && t.total > 0 then [ConvertToWebP] else []
  }

  /** The recommendations one scan of `entries` adds, in order: those of each entry, then the
      WebP advice for this directory's own counts. */
  function ScanRecs(entries: seq<Entry>): seq<Recommendation>
    decreases entries, 1
  {
    EntriesRecs(entries) + WebPAdvice(TallyOf(entries))
  }

  /** The recommendations the scan's loop adds for `entries`: a sub-directory's whole scan, or
      one compression advice for a large image. */
  function EntriesRecs(entries: seq<Entry>): seq<Recommendation>
    decreases entries, 0
  {
    if entries == [] then []
    else
      var e := entries[|entries| - 1];
      EntriesRecs(entries[..|entries| - 1]) + (if e.Dir? then ScanRecs(e.children) else FileRecs(e))
  }

  /** The number of compression advices in `rs`. */
  function CompressCount(rs: seq<Recommendation>): nat
  {
    if rs == [] then 0
    else CompressCount(rs[..|rs| - 1]) + (if rs[|rs| - 1].CompressImage? then 1 else 0)
  }

  lemma {:induction false} CompressCountAppend(a: seq<Recommendation>, b: seq<Recommendation>)
    ensures CompressCount(a + b) == CompressCount(a) + CompressCount(b)
    decreases |b|
  {
    if b != [] {
      assert (a + b)[..|a + b| - 1] == a + b[..|b| - 1];
      assert (a + b)[|a + b| - 1] == b[|b| - 1];
      CompressCountAppend(a, b[..|b| - 1]);
    } else {
      assert a + b == a;
    }
  }

  /** The number of large images anywhere below `entries`. */
  function LargeInTree(entries: seq<Entry>): nat
    decreases entries
  {
    if entries == [] then 0
    else
      var e := entries[|entries| - 1];
      LargeInTree(entries[..|entries| - 1])
      + (if e.Dir? then LargeInTree(e.children) else if IsLargeImage(e) then 1 else 0)
  }

  /** A file adds one compression advice when it is a large image and none otherwise. */
  lemma FileAdvice(e: Entry)
    requires e.File?
    ensures CompressCount(FileRecs(e)) == if IsLargeImage(e) then 1 else 0
  {
    assert [CompressImage(e.name, e.size)][..0] == [];
  }

  /** Every large image in the tree adds exactly one compression advice, wherever it sits. */
  lemma {:induction false} OneAdvicePerLargeImage(entries: seq<Entry>)
    ensures CompressCount(ScanRecs(entries)) == LargeInTree(entries)
    decreases entries, 1
  {
    EntriesAdvice(entries);
    CompressCountAppend(EntriesRecs(entries), WebPAdvice(TallyOf(entries)));
    assert CompressCount(WebPAdvice(TallyOf(entries))) == 0 by {
      assert [ConvertToWebP][..0] == [];
    }
  }

  lemma {:induction false} EntriesAdvice(entries: seq<Entry>)
    ensures CompressCount(EntriesRecs(entries)) == LargeInTree(entries)
    decreases entries, 0
  {
    if entries != [] {
      var init, e := entries[..|entries| - 1], entries[|entries| - 1];
      EntriesAdvice(init);
      if e.Dir? {
        assert EntriesRecs(entries) == EntriesRecs(init) + ScanRecs(e.children);
        OneAdvicePerLargeImage(e.children);
        CompressCountAppend(EntriesRecs(init), ScanRecs(e.children));
      } else {
        assert EntriesRecs(entries) == EntriesRecs(init) + FileRecs(e);
        FileAdvice(e);
        CompressCountAppend(EntriesRecs(init), FileRecs(e));
      }
    }
  }

  /** The script's only known large image lives in a sub-directory: the report then shows no
      images at all and the status 'Good', while the recommendations ask for that image to be
      compressed. */
  lemma NestedImagesMissingFromReport()
    ensures var entries := [Dir("a", [File("b.png", 600000)])];
      && Report(TallyOf(entries)) == Scanned(0, 0, 0, Good)
      && CompressCount(ScanRecs(entries)) == 1
  {
    var inner := [File("b.png", 600000)];
    var entries := [Dir("a", inner)];
    assert EndsWith(ToLower("b.png"), ImageExtensions[2]) by {
      assert ToLower("b.png") == "b.png";
    }
    assert IsLargeImage(inner[0]);
    assert entries[..0] == [] && inner[..0] == [];
    OneAdvicePerLargeImage(entries);
    assert TallyOf(entries) == Tally(0, 0, 0);
    assert LargeInTree(inner) == 1;
    assert LargeInTree(entries) == 1;
  }

  function AddTally(a: Tally, b: Tally): Tally
  {
    Tally(a.total + b.total, a.webp + b.webp, a.large + b.large)
  }

  /** The counters the scan evidently means: the images of the whole tree. */
  function TreeTally(entries: seq<Entry>): (t: Tally)
    ensures t.webp <= t.total && t.large <= t.total
    decreases entries
  {
    if entries == [] then Tally(0, 0, 0)
    else
      var t, e := TreeTally(entries[..|entries| - 1]), entries[|entries| - 1];
      if e.Dir? then AddTally(t, TreeTally(e.children)) else FileStep(t, e)
  }

  /** The recommendations of the corrected scan for `entries`: one compression advice per large
      image anywhere in the tree. */
  function TreeRecs(entries: seq<Entry>): seq<Recommendation>
    decreases entries
  {
    if entries == [] then []
    else
      var e := entries[|entries| - 1];
      TreeRecs(entries[..|entries| - 1]) + (if e.Dir? then TreeRecs(e.children) else FileRecs(e))
  }

  /** In the whole-tree counts, the large images are exactly the compression advices. */
  lemma {:induction false} TreeCountsMatchAdvice(entries: seq<Entry>)
    ensures CompressCount(TreeRecs(entries)) == TreeTally(entries).large
    decreases entries
  {
    if entries != [] {
      var init, e := entries[..|entries| - 1], entries[|entries| - 1];
      TreeCountsMatchAdvice(init);
      if e.Dir? {
        TreeCountsMatchAdvice(e.children);
        CompressCountAppend(TreeRecs(init), TreeRecs(e.children));
      } else {
        FileAdvice(e);
        CompressCountAppend(TreeRecs(init), FileRecs(e));
      }
    }
  }

  /** With whole-tree counts the report is consistent with its advice: the status is 'Good'
      exactly when no image was recommended for compression. */
  lemma TreeReportConsistent(entries: seq<Entry>)
    ensures Report(TreeTally(entries)).status == Good <==> CompressCount(TreeRecs(entries)) == 0
  {
    TreeCountsMatchAdvice(entries);
  }

  lemma ConcatAssoc(a: seq<Recommendation>, b: seq<Recommendation>, c: seq<Recommendation>)
    ensures (a + b) + c == a + (b + c)
  {
  }

  /** One more entry seen by the scan's loop. */
  lemma ScanStep(entries: seq<Entry>, i: nat)
    requires i < |entries|
    ensures var e := entries[i];
      && TallyOf(entries[..i + 1]) == (if e.Dir? then TallyOf(entries[..i]) else FileStep(TallyOf(entries[..i]), e))
      && EntriesRecs(entries[..i + 1]) == EntriesRecs(entries[..i]) + (if e.Dir? then ScanRecs(e.children) else FileRecs(e))
  {
    assert entries[..i + 1][..i] == entries[..i];
  }

  /** One more entry seen by the corrected scan's loop. */
  lemma TreeStep(entries: seq<Entry>, i: nat)
    requires i < |entries|
    ensures var e := entries[i];
      && TreeTally(entries[..i + 1]) == (if e.Dir? then AddTally(TreeTally(entries[..i]), TreeTally(e.children)) else FileStep(TreeTally(entries[..i]), e))
      && TreeRecs(entries[..i + 1]) == TreeRecs(entries[..i]) + (if e.Dir? then TreeRecs(e.children) else FileRecs(e))
  {
    assert entries[..i + 1][..i] == entries[..i];
  }

  /** `PerformanceMonitor`, restricted to the image part of its results. */
  class PerformanceMonitor {
    var images: ImagesReport
    var recommendations: seq<Recommendation>

    constructor ()
      ensures images == NotAnalyzed && recommendations == []
    {
      images, recommendations := NotAnalyzed, [];
    }

    /** `analyzeImages()`: scan the images directory when it exists, with the scan as written;
        otherwise record its absence and advise creating it. */
    method AnalyzeImages(dir: Option<seq<Entry>>)
      modifies this
      ensures dir.Some? ==> images == Report(TallyOf(dir.value))
                            && recommendations == old(recommendations) + ScanRecs(dir.value)
      ensures dir.None? ==> images == NoImagesDirectory
                            && recommendations == old(recommendations) + [CreateImagesDirectory]
    {
      if dir.Some? {
        ScanImagesRecursively(dir.value);
      } else {
        images := NoImagesDirectory;
        recommendations := recommendations + [CreateImagesDirectory];
      }
    }

    /** `analyzeImages()` with the corrected scan: the report counts the whole tree. */
    method AnalyzeImagesFixed(dir: Option<seq<Entry>>)
      modifies this
      ensures dir.Some? ==> images == Report(TreeTally(dir.value))
                            && recommendations == old(recommendations) + TreeRecs(dir.value)
                                                  + WebPAdvice(TreeTally(dir.value))
      ensures dir.None? ==> images == NoImagesDirectory
                            && recommendations == old(recommendations) + [CreateImagesDirectory]
    {
      if dir.Some? {
        ScanImagesFixed(dir.value);
      } else {
        images := NoImagesDirectory;
        recommendations := recommendations + [CreateImagesDirectory];
      }
    }

    /** The loop body of the scan for one file: count an image, as WebP when its name ends
        with `.webp`, and as large, with a compression advice, above the threshold. */
    method ScanFile(e: Entry, total: nat, webp: nat, large: nat) returns (total': nat, webp': nat, large': nat)
      requires e.File?
      modifies this
      ensures Tally(total', webp', large') == FileStep(Tally(total, webp, large), e)
      ensures recommendations == old(recommendations) + FileRecs(e)
      ensures images == old(images)
    {
      total', webp', large' := total, webp, large;
      if IsImageFile(e.name) {
        total' := total' + 1;
        if EndsWith(e.name, WebPExtension) {
          webp' := webp' + 1;
        }
        if e.size > LargeImageBytes {
          large' := large' + 1;
          recommendations := recommendations + [CompressImage(e.name, e.size)];
        }
      }
    }

    /** `scanImagesRecursively(dir)` as written: each sub-directory is scanned (and reports)
        first, then this directory's own counts overwrite the report. */
    method ScanImagesRecursively(entries: seq<Entry>)
      modifies this
      ensures images == Report(TallyOf(entries))
      ensures recommendations == old(recommendations) + ScanRecs(entries)
      decreases entries, 1
    {
      var total, webp, large := 0, 0, 0;
      var i := 0;
      while i < |entries|
        invariant 0 <= i <= |entries|
        invariant Tally(total, webp, large) == TallyOf(entries[..i])
        invariant recommendations == old(recommendations) + EntriesRecs(entries[..i])
      {
        var e := entries[i];
        ScanStep(entries, i);
        total, webp, large := ScanEntry(e, total, webp, large);
        ConcatAssoc(old(recommendations), EntriesRecs(entries[..i]),
                    if e.Dir? then ScanRecs(e.children) else FileRecs(e));
        i := i + 1;
      }
      assert entries[..i] == entries;
      images := Report(Tally(total, webp, large));
      if webp == 0 && total > 0 {
        recommendations := recommendations + [ConvertToWebP];
      }
    }

    /** The scan's loop body for one entry: a sub-directory is scanned on its own, which leaves
        that directory's report in `images`; a file is counted and leaves `images` alone. Only
        the counters of this directory are passed on. */
    method ScanEntry(e: Entry, total: nat, webp: nat, large: nat) returns (total': nat, webp': nat, large': nat)
      modifies this
      ensures Tally(total', webp', large') == if e.Dir? then Tally(total, webp, large) else FileStep(Tally(total, webp, large), e)
      ensures recommendations == old(recommendations) + if e.Dir? then ScanRecs(e.children) else FileRecs(e)
      ensures e.Dir? ==> images == Report(TallyOf(e.children))
      ensures e.File? ==> images == old(images)
      decreases e, 0
    {
      if e.Dir? {
        ScanImagesRecursively(e.children);
        total', webp', large' := total, webp, large;
      } else {
        total', webp', large' := ScanFile(e, total, webp, large);
      }
    }

    /** The corrected scan of a sub-tree: returns the whole tree's counts instead of reporting
        them, and adds one compression advice per large image. */
    method ScanTree(entries: seq<Entry>) returns (t: Tally)
      modifies this
      ensures t == TreeTally(entries)
      ensures recommendations == old(recommendations) + TreeRecs(entries)
      ensures images == old(images)
      decreases entries
    {
      t := Tally(0, 0, 0);
      var i := 0;
      while i < |entries|
        invariant 0 <= i <= |entries|
        invariant t == TreeTally(entries[..i])
        invariant recommendations == old(recommendations) + TreeRecs(entries[..i])
        invariant images == old(images)
      {
        var e := entries[i];
        TreeStep(entries, i);
        if e.Dir? {
          var sub := ScanTree(e.children);
          t := AddTally(t, sub);
          ConcatAssoc(old(recommendations), TreeRecs(entries[..i]), TreeRecs(e.children));
        } else {
          var total, webp, large := ScanFile(e, t.total, t.webp, t.large);
          t := Tally(total, webp, large);
          ConcatAssoc(old(recommendations), TreeRecs(entries[..i]), FileRecs(e));
        }
        i := i + 1;
      }
      assert entries[..i] == entries;
    }

    /** The corrected image scan: one report over the whole tree, and the WebP advice once. */
    method ScanImagesFixed(entries: seq<Entry>)
      modifies this
      ensures images == Report(TreeTally(entries))
      ensures recommendations == old(recommendations) + TreeRecs(entries) + WebPAdvice(TreeTally(entries))
    {
      var t := ScanTree(entries);
      images := Report(t);
      if t.webp == 0 && t.total > 0 {
        recommendations := recommendations + [ConvertToWebP];
      }
    }
  }
}
