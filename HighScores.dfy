/**
 * The high-score table of main.go: at most `maxHighScores` entries kept in descending
 * order of score, read from and written to the flat text file `files/highscores.txt`
 * whose lines are `name,score`. The file is modelled as the `file` field of the table:
 * its text, or `None` when it cannot be read.
 */
module HighScores {
  import opened Wrappers
  import opened Text
  import opened Ints

  const MaxHighScores: nat := 5

  datatype HighScore = HighScore(name: string, score: int)

  /** Sorted by descending score, in any order among equal scores. */
  predicate NonIncreasing(t: seq<HighScore>)
  {
    forall i, j :: 0 <= i < j < |t| ==> t[i].score >= t[j].score
  }

  /**
   * `dst` is what sorting `src` by descending score and keeping the first `MaxHighScores`
   * entries can give. `sort.Slice` is not stable, so entries with equal scores may come out
   * in any order; this predicate admits every such order: `dst` is non-increasing, has
   * `Min(|src|, MaxHighScores)` entries taken from `src`, and no entry left out scores more
   * than the last one kept.
   */
  ghost predicate IsTopOf(src: seq<HighScore>, dst: seq<HighScore>)
  {
    && |dst| == Min(|src|, MaxHighScores)
    && NonIncreasing(dst)
    && multiset(dst) <= multiset(src)
    && forall e :: e in multiset(src) - multiset(dst) ==> |dst| > 0 && e.score <= dst[|dst| - 1].score
  }

  // ---------------------------------------------------------------------------
  // Sorting (sortHighScores)

  /** Inserts `e` into a table sorted by descending score, after the entries that score at least as much. */
  function InsertByScore(t: seq<HighScore>, e: HighScore): (r: seq<HighScore>)
    requires NonIncreasing(t)
    ensures NonIncreasing(r)
    ensures multiset(r) == multiset(t) + multiset{e}
    ensures |r| == |t| + 1
    ensures r[0] == e || (|t| > 0 && r[0] == t[0])
  {
    if |t| == 0 then [e]
    else if e.score > t[0].score then [e] + t
    else
      var rest := InsertByScore(t[1..], e);
      var r := [t[0]] + rest;
      assert t == [t[0]] + t[1..];
      assert forall j :: 0 < j < |r| ==> r[0].score >= r[1].score >= r[j].score;
      r
  }

  /** Cutting a sorted permutation of `src` down to `MaxHighScores` entries gives a top table of `src`. */
  lemma TruncateSorted(src: seq<HighScore>, s: seq<HighScore>)
    requires NonIncreasing(s) && multiset(s) == multiset(src)
    ensures IsTopOf(src, s[..Min(|s|, MaxHighScores)])
  {
    var k := Min(|s|, MaxHighScores);
    var kept, dropped := s[..k], s[k..];
    assert s == kept + dropped;
    assert multiset(src) - multiset(kept) == multiset(dropped);
    assert multiset(kept) <= multiset(src);
    assert NonIncreasing(kept);
    forall e: HighScore | e in multiset(dropped)
      ensures |kept| > 0 && e.score <= kept[|kept| - 1].score
    {
      DroppedScoresLower(s, k, e);
    }
  }

  lemma DroppedScoresLower(s: seq<HighScore>, k: nat, e: HighScore)
    requires NonIncreasing(s) && 0 < k <= |s|
    requires e in s[k..]
    ensures e.score <= s[k - 1].score
  {
    var j :| k <= j < |s| && s[j] == e;
  }

  /** A table of at most `MaxHighScores` entries loses nothing to the cut: its top table holds the same entries. */
  lemma TopOfShort(src: seq<HighScore>, dst: seq<HighScore>)
    requires |src| <= MaxHighScores && IsTopOf(src, dst)
    ensures multiset(dst) == multiset(src)
  {
    var extra := multiset(src) - multiset(dst);
    assert multiset(src) == multiset(dst) + extra;
    assert |multiset(src)| == |multiset(dst)| + |extra|;
    assert |extra| == 0;
  }

  // ---------------------------------------------------------------------------
  // addHighScore

  /** `addHighScore` returns early: the table is full and the score does not beat the last entry, or the same name and score are already there. */
  predicate Rejects(t: seq<HighScore>, name: string, score: int)
  {
    (|t| == MaxHighScores && score <= t[MaxHighScores - 1].score) || HighScore(name, score) in t
  }

  /**
   * The possible outcomes of `addHighScore(name, score)` on table `t0` and file `f0`:
   * nothing changes when the offer is rejected; otherwise the entry is appended, the table
   * re-sorted and cut, and the file rewritten from the new table.
   */
  ghost predicate AddOutcome(t0: seq<HighScore>, f0: Option<string>, name: string, score: int,
                             t1: seq<HighScore>, f1: Option<string>)
  {
    if Rejects(t0, name, score) then t1 == t0 && f1 == f0
    else IsTopOf(t0 + [HighScore(name, score)], t1) && f1 == Some(Serialize(t1))
  }

  /**
   * Offering a score is idempotent: right after any outcome of an offer, the same offer is
   * rejected (the entry is either in the table now or would be cut again).
   */
  lemma AddIdempotent(t0: seq<HighScore>, f0: Option<string>, name: string, score: int,
                      t1: seq<HighScore>, f1: Option<string>)
    requires |t0| <= MaxHighScores
    requires AddOutcome(t0, f0, name, score, t1, f1)
    ensures Rejects(t1, name, score)
  {
    var e := HighScore(name, score);
    if !Rejects(t0, name, score) {
      var src := t0 + [e];
      assert e in multiset(src);
      if e !in t1 {
        assert e !in multiset(t1);
        assert e in multiset(src) - multiset(t1);
        if |src| <= MaxHighScores {
          TopOfShort(src, t1);
          assert false;
        }
      }
    }
  }

  // ---------------------------------------------------------------------------
  // The file format (saveHighScores and loadHighScores)

  /** An entry that survives a save and a load: no comma or newline in its name, a 64-bit score. */
  predicate Storable(e: HighScore)
  {
    ',' !in e.name && '\n' !in e.name && IsInt64(e.score)
  }

  /** One line of the file, without its newline: `name,score`. */
  function EntryLine(e: HighScore): string
  {
    e.name + [','] + Itoa(e.score)
  }

  /** What `saveHighScores` writes: every entry, in table order, as `name,score\n`. */
  function Serialize(t: seq<HighScore>): string
  {
    if |t| == 0 then "" else Serialize(t[..|t| - 1]) + EntryLine(t[|t| - 1]) + "\n"
  }

  /**
   * One line as `loadHighScores` reads it: white-space-only lines, lines that do not split
   * into exactly two fields at commas, and lines whose second field is not an integer are
   * skipped (`None`). Nothing is trimmed: the name is everything before the comma and the
   * score everything after it.
   */
  function ParseLine(line: string): (r: Option<HighScore>)
    ensures IsBlank(line) ==> r.None?
    ensures r.Some? ==>
      var n := |r.value.name|;
      && n < |line| && line[..n] == r.value.name && line[n] == ','
      && ',' !in r.value.name && ',' !in line[n + 1..]
      && Atoi(line[n + 1..]) == Some(r.value.score)
  {
    if IsBlank(line) then None
    else
      var parts := SplitOn(line, ',');
      if |parts| != 2 then None
      else
        match Atoi(parts[1])
        case None => None
        case Some(score) =>
          assert Join(parts[1..], ',') == parts[1];
          assert line == parts[0] + [','] + parts[1];
          assert line[..|parts[0]|] == parts[0];
          assert line[|parts[0]| + 1..] == parts[1];
          Some(HighScore(parts[0], score))
  }

  /** A line made of a comma-free name, a comma and an integer text is read as that entry. */
  lemma ParseLineAccepts(name: string, text: string, score: int)
    requires ',' !in name && ',' !in text && Atoi(text) == Some(score)
    ensures ParseLine(name + [','] + text) == Some(HighScore(name, score))
  {
    var line := name + [','] + text;
    assert line[|name|] == ',';
    SplitAround(name, text, ',');
    SplitFree(name, ',');
    SplitFree(text, ',');
  }

  /** The entries of the given lines, in order, skipping the lines `ParseLine` rejects. */
  function ParseLines(lines: seq<string>): (r: seq<HighScore>)
    ensures |r| <= |lines|
    ensures forall i :: 0 <= i < |r| ==> ',' !in r[i].name && IsInt64(r[i].score)
    ensures (forall j :: 0 <= j < |lines| ==> '\n' !in lines[j]) ==>
              forall i :: 0 <= i < |r| ==> '\n' !in r[i].name
  {
    if |lines| == 0 then []
    else
      var init := ParseLines(lines[..|lines| - 1]);
      var last := lines[|lines| - 1];
      match ParseLine(last)
      case None => init
      case Some(e) =>
        assert '\n' !in last ==> '\n' !in last[..|e.name|];
        init + [e]
  }

  /** The entries `loadHighScores` reads before sorting: none when the file cannot be read. */
  function ParseFile(file: Option<string>): (r: seq<HighScore>)
    ensures forall i :: 0 <= i < |r| ==> Storable(r[i])
  {
    match file
    case None => []
    case Some(content) => ParseLines(SplitOn(content, '\n'))
  }

  /** The lines `Serialize` writes, one per entry. */
  function Lines(t: seq<HighScore>): (r: seq<string>)
    ensures |r| == |t|
  {
    if |t| == 0 then [] else Lines(t[..|t| - 1]) + [EntryLine(t[|t| - 1])]
  }

  lemma {:induction false} SplitSerialized(t: seq<HighScore>, rest: string)
    requires forall i :: 0 <= i < |t| ==> Storable(t[i])
    ensures SplitOn(Serialize(t) + rest, '\n') == Lines(t) + SplitOn(rest, '\n')
  {
    if |t| == 0 {
      assert Serialize(t) + rest == rest;
    } else {
      var init, e := t[..|t| - 1], t[|t| - 1];
      var line := EntryLine(e);
      var after := line + ['\n'] + rest;
      assert Serialize(t) + rest == Serialize(init) + after;
      NoNewlineInEntryLine(e);
      calc {
        SplitOn(Serialize(t) + rest, '\n');
        SplitOn(Serialize(init) + after, '\n');
        { SplitSerialized(init, after); }
        Lines(init) + SplitOn(after, '\n');
        { SplitAround(line, rest, '\n'); SplitFree(line, '\n'); }
        Lines(init) + ([line] + SplitOn(rest, '\n'));
        Lines(t) + SplitOn(rest, '\n');
      }
    }
  }

  lemma NoNewlineInEntryLine(e: HighScore)
    requires Storable(e)
    ensures '\n' !in EntryLine(e)
  {
    var digits := Itoa(e.score);
    assert '\n' !in digits;
  }

  lemma {:induction false} ParseLinesOfLines(t: seq<HighScore>)
    requires forall i :: 0 <= i < |t| ==> Storable(t[i])
    ensures ParseLines(Lines(t)) == t
  {
    if |t| > 0 {
      var init, e := t[..|t| - 1], t[|t| - 1];
      assert Lines(t) == Lines(init) + [EntryLine(e)];
      ParseLinesOfLines(init);
      ParseEntryLine(e);
      ParseLinesSnoc(Lines(init), EntryLine(e), e);
      LastSplit(t);
    }
  }

  /** Writing one more entry appends its line. */
  lemma SerializePrefix(t: seq<HighScore>, i: nat)
    requires i < |t|
    ensures Serialize(t[..i + 1]) == Serialize(t[..i]) + EntryLine(t[i]) + "\n"
  {
    assert t[..i + 1][..i] == t[..i];
  }

  /** A non-empty sequence is its front followed by its last element. */
  lemma LastSplit<T>(s: seq<T>)
    requires |s| > 0
    ensures s == s[..|s| - 1] + [s[|s| - 1]]
  {
  }

  /** Every line `saveHighScores` writes reads back as its entry. */
  lemma ParseEntryLine(e: HighScore)
    requires Storable(e)
    ensures ParseLine(EntryLine(e)) == Some(e)
  {
    AtoiItoa(e.score);
    ParseLineAccepts(e.name, Itoa(e.score), e.score);
  }

  lemma ParseLinesSnoc(lines: seq<string>, line: string, e: HighScore)
    requires ParseLine(line) == Some(e)
    ensures ParseLines(lines + [line]) == ParseLines(lines) + [e]
  {
    var all := lines + [line];
    assert all[..|all| - 1] == lines;
    assert all[|all| - 1] == line;
  }

  /** Reading back what `saveHighScores` wrote gives the same entries in the same order. */
  lemma SaveLoadRoundTrip(t: seq<HighScore>)
    requires forall i :: 0 <= i < |t| ==> Storable(t[i])
    ensures ParseFile(Some(Serialize(t))) == t
  {
    SerializedLines(t);
    TrailingEmptyLine(Lines(t));
    ParseLinesOfLines(t);
  }

  /** The file splits at newlines into one line per entry and the empty text after the last newline. */
  lemma SerializedLines(t: seq<HighScore>)
    requires forall i :: 0 <= i < |t| ==> Storable(t[i])
    ensures SplitOn(Serialize(t), '\n') == Lines(t) + [""]
  {
    var text := Serialize(t);
    assert text + "" == text;
    SplitSerialized(t, "");
  }

  lemma TrailingEmptyLine(lines: seq<string>)
    ensures ParseLines(lines + [""]) == ParseLines(lines)
  {
    var all := lines + [""];
    assert all[..|all| - 1] == lines;
    assert ParseLine(all[|all| - 1]) == None;
  }

  /**
   * Saving a table of at most `MaxHighScores` storable entries and loading the file again
   * (parse, then sort and cut) gives back the same multiset of entries, sorted.
   */
  lemma SaveThenLoad(t: seq<HighScore>, loaded: seq<HighScore>)
    requires |t| <= MaxHighScores
    requires forall i :: 0 <= i < |t| ==> Storable(t[i])
    requires IsTopOf(ParseFile(Some(Serialize(t))), loaded)
    ensures multiset(loaded) == multiset(t) && NonIncreasing(loaded)
  {
    SaveLoadRoundTrip(t);
    TopOfShort(t, loaded);
  }

  // ---------------------------------------------------------------------------
  // The table as the program keeps it

  /** The global `highScores` slice, with the high-score file it is loaded from and saved to. */
  class HighScoreTable {
    var entries: seq<HighScore>
    var file: Option<string>

    /** What every operation but a bare append keeps: at most five entries, best first. */
    ghost predicate Valid()
      reads this
    {
      |entries| <= MaxHighScores && NonIncreasing(entries)
    }

    constructor (file: Option<string>)
      ensures entries == [] && this.file == file
    {
      entries := [];
      this.file := file;
    }

    /** `sortHighScores`: sort by descending score, then keep the first `MaxHighScores` entries. */
    method SortHighScores()
      modifies this`entries
      ensures IsTopOf(old(entries), entries)
      ensures Valid()
    {
      var sorted: seq<HighScore> := [];
      var i := 0;
      while i < |entries|
        invariant 0 <= i <= |entries|
        invariant NonIncreasing(sorted)
        invariant multiset(sorted) == multiset(entries[..i])
      {
        assert entries[..i + 1] == entries[..i] + [entries[i]];
        sorted := InsertByScore(sorted, entries[i]);
        i := i + 1;
      }
      assert entries[..i] == entries;
      TruncateSorted(entries, sorted);
      if |sorted| > MaxHighScores {
        sorted := sorted[..MaxHighScores];
      }
      entries := sorted;
    }

    /** `loadHighScores`: read every well-formed line of the file, then sort and cut. */
    method LoadHighScores()
      modifies this`entries
      ensures IsTopOf(ParseFile(file), entries)
      ensures Valid()
    {
      entries := [];
      if file.Some? {
        var lines := SplitOn(file.value, '\n');
        var i := 0;
        while i < |lines|
          invariant 0 <= i <= |lines|
          invariant entries == ParseLines(lines[..i])
        {
          var line := lines[i];
          assert lines[..i + 1][..i] == lines[..i];
          if !IsBlank(line) {
            var parts := SplitOn(line, ',');
            if |parts| == 2 {
              var score := Atoi(parts[1]);
              if score.Some? {
                entries := entries + [HighScore(parts[0], score.value)];
              }
            }
          }
          i := i + 1;
        }
        assert lines[..i] == lines;
      }
      SortHighScores();
    }

    /** `saveHighScores`: write the table, in order, one `name,score` line per entry. */
    method SaveHighScores()
      modifies this`file
      ensures file == Some(Serialize(entries))
    {
      var text := "";
      for i := 0 to |entries|
        invariant text == Serialize(entries[..i])
      {
        SerializePrefix(entries, i);
        var line := entries[i].name + "," + Itoa(entries[i].score);
        text := text + line + "\n";
      }
      assert entries[..|entries|] == entries;
      file := Some(text);
    }

    /**
     * `addHighScore`: reject a score that does not beat the last entry of a full table, or
     * a name and score already present; otherwise append, sort, cut and save.
     */
    method AddHighScore(name: string, score: int)
      modifies this
      ensures AddOutcome(old(entries), old(file), name, score, entries, file)
      ensures old(Valid()) ==> Valid()
    {
      if |entries| == MaxHighScores && score <= entries[MaxHighScores - 1].score {
        return;
      }
      for i := 0 to |entries|
        invariant HighScore(name, score) !in entries[..i]
      {
        if entries[i].name == name && entries[i].score == score {
          return;
        }
        assert entries[..i + 1] == entries[..i] + [entries[i]];
      }
      assert entries[..|entries|] == entries;
      entries := entries + [HighScore(name, score)];
      SortHighScores();
      SaveHighScores();
    }
  }
}
