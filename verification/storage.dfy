/**
 * Journal entries and their markdown file (storage.py).
 *
 * An entry has four free-text fields and an optional transcript and sentiment.
 * Its markdown form is a date heading, four labelled lines in a fixed order,
 * then a transcript block and a sentiment block, each present only when its
 * field is truthy in Python's sense (neither None nor ""). Saving writes that
 * text to `<directory>/<date>.md`, replacing whatever the file held.
 * The date is a parameter here where the source asks the clock for today's.
 */
module Storage {
  import opened Wrappers
  import opened Dates
  import opened Paths
  import opened Text

  datatype DailyEntry = DailyEntry(
    mindset: string,
    heartset: string,
    energy: string,
    intentions: string,
    transcript: Option<string>,
    sentiment: Option<string>)

  /** Python truthiness of a `str | None`. */
  predicate IsTruthy(s: Option<string>) {
    s.Some? && s.value != ""
  }

  const MindsetLabel: string := "- \U{1F9E0} Mindset: "
  const HeartsetLabel: string := "- \U{1FA60} Heartset: "
  const EnergyLabel: string := "- \U{1F321}\U{FE0F} Energy: "
  const IntentionsLabel: string := "- \U{1F3AF} Intentions: "

  function Heading(today: CalendarDate): string {
    "# " + IsoFormat(today) + "\n\n"
  }

  /** One labelled line; the value goes in verbatim, nothing is escaped. */
  function LabelledLine(caption: string, value: string): string {
    caption + value + "\n"
  }

  function TranscriptBlock(t: Option<string>): string {
    if IsTruthy(t) then "\n**Transcript**:\n" + t.value + "\n" else ""
  }

  function SentimentBlock(s: Option<string>): string {
    if IsTruthy(s) then "\n**Sentiment**: " + s.value + "\n" else ""
  }

  /** `DailyEntry.to_markdown`, with today's date passed in. It cannot fail. */
  function ToMarkdown(e: DailyEntry, today: CalendarDate): (r: string)
    ensures Heading(today) <= r
  {
    Heading(today)
    + LabelledLine(MindsetLabel, e.mindset)
    + LabelledLine(HeartsetLabel, e.heartset)
    + LabelledLine(EnergyLabel, e.energy)
    + LabelledLine(IntentionsLabel, e.intentions)
    + TranscriptBlock(e.transcript)
    + SentimentBlock(e.sentiment)
  }

  /** Each of four consecutive pieces stands where the pieces before it end. */
  lemma PiecesInOrder(hd: string, m: string, h: string, g: string, i: string, t: string, u: string)
    ensures var r := hd + m + h + g + i + t + u;
      && OccursAt(m, r, |hd|)
      && OccursAt(h, r, |hd| + |m|)
      && OccursAt(g, r, |hd| + |m| + |h|)
      && OccursAt(i, r, |hd| + |m| + |h| + |g|)
  {
    var r := hd + m + h + g + i + t + u;
    var rest := h + g + i + t + u;
    assert r == hd + m + rest;
    assert r[|hd|..|hd| + |m|] == m;
    assert r[|hd| + |m|..|hd| + |m| + |h|] == h;
    assert r[|hd| + |m| + |h|..|hd| + |m| + |h| + |g|] == g;
    assert r[|hd| + |m| + |h| + |g|..|hd| + |m| + |h| + |g| + |i|] == i;
  }

  /** The text opens with `# `, then a date that reads back as today, then a blank line. */
  lemma HeadingNamesToday(e: DailyEntry, today: CalendarDate)
    ensures var r := ToMarkdown(e, today);
      && |r| >= 14 && r[..2] == "# " && ParseIso(r[2..12]) == Some(today) && r[12..14] == "\n\n"
  {
    var r := ToMarkdown(e, today);
    assert Heading(today) <= r;
    assert r[2..12] == IsoFormat(today);
    ParseOfIsoFormat(today);
  }

  /**
   * The four labelled lines follow the heading back to back, in the order
   * Mindset, Heartset, Energy, Intentions, each ending with its field verbatim.
   */
  lemma LabelledLinesInOrder(e: DailyEntry, today: CalendarDate)
    ensures var r := ToMarkdown(e, today);
      var m := LabelledLine(MindsetLabel, e.mindset);
      var h := LabelledLine(HeartsetLabel, e.heartset);
      var g := LabelledLine(EnergyLabel, e.energy);
      var i := LabelledLine(IntentionsLabel, e.intentions);
      var at := |Heading(today)|;
      && OccursAt(m, r, at)
      && OccursAt(h, r, at + |m|)
      && OccursAt(g, r, at + |m| + |h|)
      && OccursAt(i, r, at + |m| + |h| + |g|)
  {
    PiecesInOrder(Heading(today),
      LabelledLine(MindsetLabel, e.mindset), LabelledLine(HeartsetLabel, e.heartset),
      LabelledLine(EnergyLabel, e.energy), LabelledLine(IntentionsLabel, e.intentions),
      TranscriptBlock(e.transcript), SentimentBlock(e.sentiment));
  }

  /** With neither optional field truthy the text is the heading and the four lines, nothing more. */
  lemma BareRendering(e: DailyEntry, today: CalendarDate)
    requires !IsTruthy(e.transcript) && !IsTruthy(e.sentiment)
    ensures ToMarkdown(e, today) ==
      "# " + IsoFormat(today) + "\n\n"
      + "- \U{1F9E0} Mindset: " + e.mindset + "\n"
      + "- \U{1FA60} Heartset: " + e.heartset + "\n"
      + "- \U{1F321}\U{FE0F} Energy: " + e.energy + "\n"
      + "- \U{1F3AF} Intentions: " + e.intentions + "\n"
  {
  }

  /** The transcript changes the text if and only if it is neither None nor "". */
  lemma TranscriptShownIffTruthy(e: DailyEntry, today: CalendarDate)
    ensures ToMarkdown(e, today) != ToMarkdown(e.(transcript := None), today) <==> IsTruthy(e.transcript)
  {
    if IsTruthy(e.transcript) {
      assert |ToMarkdown(e, today)| > |ToMarkdown(e.(transcript := None), today)|;
    }
  }

  /** The sentiment changes the text if and only if it is neither None nor "". */
  lemma SentimentShownIffTruthy(e: DailyEntry, today: CalendarDate)
    ensures ToMarkdown(e, today) != ToMarkdown(e.(sentiment := None), today) <==> IsTruthy(e.sentiment)
  {
    if IsTruthy(e.sentiment) {
      assert |ToMarkdown(e, today)| > |ToMarkdown(e.(sentiment := None), today)|;
    }
  }

  /** A truthy transcript adds exactly its block, right after the four lines. */
  lemma TranscriptBlockAfterLines(e: DailyEntry, today: CalendarDate)
    requires IsTruthy(e.transcript)
    ensures ToMarkdown(e.(sentiment := None), today) ==
      ToMarkdown(e.(transcript := None, sentiment := None), today)
      + "\n**Transcript**:\n" + e.transcript.value + "\n"
  {
  }

  /** A truthy sentiment adds exactly its block, at the very end: after any transcript block. */
  lemma SentimentBlockLast(e: DailyEntry, today: CalendarDate)
    requires IsTruthy(e.sentiment)
    ensures ToMarkdown(e, today) ==
      ToMarkdown(e.(sentiment := None), today) + "\n**Sentiment**: " + e.sentiment.value + "\n"
  {
  }

  /** None and "" are the same to the renderer, for both optional fields. */
  lemma EmptyAndNoneRenderAlike(e: DailyEntry, today: CalendarDate)
    ensures ToMarkdown(e.(transcript := Some("")), today) == ToMarkdown(e.(transcript := None), today)
    ensures ToMarkdown(e.(sentiment := Some("")), today) == ToMarkdown(e.(sentiment := None), today)
  {
  }

  /**
   * The entry from the storage test: its text carries the word `Mindset`
   * just after the heading, then both optional sections at the end.
   */
  lemma SampleEntryRendering(today: CalendarDate)
    ensures var e := DailyEntry("mind", "heart", "energy", "intention", Some("hi"), Some("positive"));
      var r := ToMarkdown(e, today);
      && OccursAt("Mindset", r, |Heading(today)| + 4)
      && r == ToMarkdown(e.(transcript := None, sentiment := None), today)
              + "\n**Transcript**:\nhi\n" + "\n**Sentiment**: positive\n"
  {
    var e := DailyEntry("mind", "heart", "energy", "intention", Some("hi"), Some("positive"));
    var hd := Heading(today);
    var r := ToMarkdown(e, today);
    var m := LabelledLine(MindsetLabel, "mind");
    assert m[4..11] == "Mindset";
    LabelledLinesInOrder(e, today);
    assert r[|hd|..|hd| + |m|][4..11] == r[|hd| + 4..|hd| + 11];
    TranscriptBlockAfterLines(e, today);
    SentimentBlockLast(e, today);
  }

  // ---------------------------------------------------------------------------
  // Where entries are saved
  // ---------------------------------------------------------------------------

  /** `f"{today}.md"`: one component, naming the day and nothing else. */
  function EntryFileName(today: CalendarDate): (n: string)
    ensures |n| == 13 && '/' !in n
    ensures n[10..] == ".md" && ParseIso(n[..10]) == Some(today)
  {
    var n := IsoFormat(today) + ".md";
    assert n[..10] == IsoFormat(today);
    ParseOfIsoFormat(today);
    n
  }

  /** `directory / f"{today}.md"`: fixed by the directory and the day, whatever the entry. */
  function EntryPath(directory: Path, today: CalendarDate): (p: Path)
    ensures Parent(p) == directory && Name(p) == EntryFileName(today)
  {
    Join(directory, EntryFileName(today))
  }

  /** Two different days never write to the same file. */
  lemma EntryPathsDistinct(directory: Path, d1: CalendarDate, d2: CalendarDate)
    requires d1 != d2
    ensures EntryPath(directory, d1) != EntryPath(directory, d2)
  {
  }

  /** The local disk: regular files with their text, and the directories that exist. */
  class LocalDisk {
    var files: map<Path, string>
    var dirs: set<Path>

    constructor (files: map<Path, string>, dirs: set<Path>)
      ensures this.files == files && this.dirs == dirs
    {
      this.files := files;
      this.dirs := dirs;
    }

    /**
     * `save_entry`: make the directory and its parents, then write the rendering
     * to `<directory>/<today>.md`, replacing any earlier text there. No other file changes.
     * The clock is read twice: `today` for the file name, then `headingDay` when
     * the entry is rendered; the two differ only on a save that straddles midnight.
     */
    method SaveEntry(entry: DailyEntry, directory: Path, today: CalendarDate, headingDay: CalendarDate)
      returns (p: Path)
      modifies this
      ensures p == EntryPath(directory, today)
      ensures dirs == old(dirs) + Ancestors(directory)
      ensures files == old(files)[p := ToMarkdown(entry, headingDay)]
      ensures forall q :: q in old(files) && q != p ==> q in files && files[q] == old(files)[q]
    {
      dirs := dirs + Ancestors(directory);
      p := Join(directory, EntryFileName(today));
      files := files[p := ToMarkdown(entry, headingDay)];
    }

    /** Two saves on one day leave only the second entry's text, not both. */
    method SaveTwiceSameDay(
      first: DailyEntry, second: DailyEntry, directory: Path, today: CalendarDate,
      firstHeading: CalendarDate, secondHeading: CalendarDate)
      returns (p: Path)
      modifies this
      ensures p == EntryPath(directory, today)
      ensures files == old(files)[p := ToMarkdown(second, secondHeading)]
    {
      var p1 := SaveEntry(first, directory, today, firstHeading);
      p := SaveEntry(second, directory, today, secondHeading);
      assert p1 == p;
    }
  }
}
