/** `scripts/sync-version-to-readme.ts`: the release notes of the version
    file are rendered one per line and spliced into the README between two
    marker comments. Reading and writing the files, `JSON.parse` and the
    console are left out; the script is a function from the README text and
    the list of updates to the new README text. */
module VersionSync {
  import opened Wrappers
  import opened Seqs
  import opened Strings

  /** One entry of `updates` in the version file. */
  datatype Update = Update(version: string, note: string)

  /** `- v${u.version} - ${u.note}`. */
  function UpdateLine(u: Update): (line: string)
    ensures StartsWith(line, "- v")
  {
    "- v" + u.version + " - " + u.note
  }

  function UpdateLines(updates: seq<Update>): (lines: seq<string>)
    ensures |lines| == |updates|
    ensures forall i :: 0 <= i < |updates| ==> lines[i] == UpdateLine(updates[i])
  {
    seq(|updates|, i requires 0 <= i < |updates| => UpdateLine(updates[i]))
  }

  /** `updates.map(…).join("\n")`. */
  function Render(updates: seq<Update>): string {
    Join(UpdateLines(updates), "\n")
  }

  /** When no version or note holds a line break, the rendered text splits
      back, line by line, into the rendered updates. */
  lemma RenderSplits(updates: seq<Update>)
    requires updates != []
    requires forall i :: 0 <= i < |updates| ==> '\n' !in updates[i].version && '\n' !in updates[i].note
    ensures Split(Render(updates), '\n') == UpdateLines(updates)
  {
    var lines := UpdateLines(updates);
    forall i | 0 <= i < |lines|
      ensures '\n' !in lines[i]
    {
      assert lines[i] == "- v" + updates[i].version + " - " + updates[i].note;
    }
    SplitJoin(lines, '\n');
  }

  const VERSION_START: string :=
    "<!-- VERSION_SECTION - Do not edit manually; run `npm run version:sync` to update from lib/version.json -->"
  const VERSION_END: string := "<!-- VERSION_SECTION_END -->"

  /** What the script does: stop with an error, writing nothing, or write a
      new README. */
  datatype Outcome = MissingMarkers | Written(readme: string)

  /** Lines 24-34 for any pair of markers: the text up to the end of the
      first start marker, a line break, the rendered lines, a line break,
      and the text from the first end marker on. */
  function Splice(readme: string, lines: string, startMarker: string, endMarker: string): (o: Outcome)
    ensures o.MissingMarkers? <==> !Contains(readme, startMarker) || !Contains(readme, endMarker)
    ensures o.Written? ==>
              var start := IndexOf(readme, startMarker).value;
              var end := IndexOf(readme, endMarker).value;
              && OccursAt(readme, startMarker, start) && OccursAt(readme, endMarker, end)
              && o.readme == readme[..start + |startMarker|] + "\n" + lines + "\n" + readme[end..]
  {
    match (IndexOf(readme, startMarker), IndexOf(readme, endMarker))
    case (Some(start), Some(end)) =>
      Written(readme[..start + |startMarker|] + "\n" + lines + "\n" + readme[end..])
    case _ => MissingMarkers
  }

  /** `main()` on the README text and the updates of the version file. */
  function Sync(readme: string, updates: seq<Update>): (o: Outcome)
    ensures o.MissingMarkers? <==> !Contains(readme, VERSION_START) || !Contains(readme, VERSION_END)
  {
    Splice(readme, Render(updates), VERSION_START, VERSION_END)
  }

  /** The text before the start marker, the marker itself, and everything
      from the end marker on survive the splice verbatim. */
  lemma SplicePreserves(readme: string, lines: string, startMarker: string, endMarker: string)
    requires Splice(readme, lines, startMarker, endMarker).Written?
    ensures var o := Splice(readme, lines, startMarker, endMarker).readme;
            var start := IndexOf(readme, startMarker).value;
            var end := IndexOf(readme, endMarker).value;
            && o[..start] == readme[..start]
            && OccursAt(o, startMarker, start)
            && o[|o| - (|readme| - end)..] == readme[end..]
            && StartsWith(readme[end..], endMarker)
  {
    var o := Splice(readme, lines, startMarker, endMarker).readme;
    var start := IndexOf(readme, startMarker).value;
    var end := IndexOf(readme, endMarker).value;
    var before := readme[..start + |startMarker|];
    assert o == before + ("\n" + lines + "\n") + readme[end..];
    assert o[..start] == before[..start];
    assert o[start..start + |startMarker|] == before[start..];
  }

  /** A window of `s` that covers a line break is no occurrence of a
      pattern without one. */
  lemma BreakBlocks(s: string, pat: string, k: nat, p: nat)
    requires '\n' !in pat
    requires k <= p < k + |pat| && p < |s| && s[p] == '\n'
    ensures !OccursAt(s, pat, k)
  {
  }

  /** `indexOf` is the first occurrence. */
  lemma IndexOfIs(s: string, pat: string, k: nat)
    requires OccursAt(s, pat, k)
    requires forall j :: 0 <= j < k ==> !OccursAt(s, pat, j)
    ensures IndexOf(s, pat) == Some(k)
  {
  }

  /** An occurrence that lies inside a prefix is an occurrence in the
      longer text, and back. */
  lemma OccursInPrefix(s: string, t: string, pat: string, k: nat)
    requires k + |pat| <= |s|
    ensures OccursAt(s, pat, k) <==> OccursAt(s + t, pat, k)
  {
    assert (s + t)[k..k + |pat|] == s[k..k + |pat|];
  }

  /** An occurrence inside a suffix. */
  lemma OccursInSuffix(s: string, t: string, pat: string, k: nat)
    ensures OccursAt(t, pat, k) <==> OccursAt(s + t, pat, |s| + k)
  {
    if k + |pat| <= |t| {
      assert (s + t)[|s| + k..|s| + k + |pat|] == t[k..k + |pat|];
    }
  }

  /** The part after the start marker does not matter to where the start
      marker is first found. */
  lemma StartFoundInSplice(readme: string, middle: string, startMarker: string, start: nat)
    requires IndexOf(readme, startMarker) == Some(start)
    ensures IndexOf(readme[..start + |startMarker|] + middle, startMarker) == Some(start)
  {
    var before := readme[..start + |startMarker|];
    assert before[start..start + |startMarker|] == startMarker;
    OccursInPrefix(before, middle, startMarker, start);
    forall j | 0 <= j < start
      ensures !OccursAt(before + middle, startMarker, j)
    {
      assert readme == before + readme[start + |startMarker|..];
      OccursInPrefix(before, readme[start + |startMarker|..], startMarker, j);
      OccursInPrefix(before, middle, startMarker, j);
    }
    IndexOfIs(before + middle, startMarker, start);
  }

  /** No occurrence of the end marker starts before the old tail: one in
      the kept prefix would be an earlier one in the old text, one in the
      rendered lines is excluded, and any other covers a line break. */
  lemma NoEarlierEnd(readme: string, m: nat, lines: string, endMarker: string, end: nat, j: nat)
    requires IndexOf(readme, endMarker) == Some(end)
    requires m <= end
    requires endMarker != [] && '\n' !in endMarker
    requires !Contains(lines, endMarker)
    requires j < m + |lines| + 2
    ensures !OccursAt(readme[..m] + "\n" + lines + "\n" + readme[end..], endMarker, j)
  {
    var before := readme[..m];
    var tail := readme[end..];
    var u := before + "\n" + lines + "\n" + tail;
    if j + |endMarker| <= m {
      NotInPrefix(readme, m, endMarker, end, j, "\n" + lines + "\n" + tail);
      assert u == before + ("\n" + lines + "\n" + tail);
    } else if j <= m {
      assert u[m] == '\n';
      BreakBlocks(u, endMarker, j, m);
    } else if j + |endMarker| <= m + 1 + |lines| {
      var front := before + "\n";
      var back := lines + ("\n" + tail);
      assert u == front + back;
      OccursInSuffix(front, back, endMarker, j - m - 1);
      OccursInPrefix(lines, "\n" + tail, endMarker, j - m - 1);
    } else {
      assert u[m + |lines| + 1] == '\n';
      BreakBlocks(u, endMarker, j, m + |lines| + 1);
    }
  }

  /** An occurrence inside a prefix that ends before the first occurrence
      is impossible, whatever follows the prefix. */
  lemma NotInPrefix(readme: string, m: nat, pat: string, first: nat, j: nat, rest: string)
    requires IndexOf(readme, pat) == Some(first)
    requires m <= first && j + |pat| <= m && pat != []
    ensures !OccursAt(readme[..m] + rest, pat, j)
  {
    assert readme == readme[..m] + readme[m..];
    OccursInPrefix(readme[..m], readme[m..], pat, j);
    OccursInPrefix(readme[..m], rest, pat, j);
  }

  /** With the end marker past the kept prefix, free of line breaks and
      absent from the rendered lines, the spliced text first shows it where
      the old text's tail begins. */
  lemma EndFoundInSplice(readme: string, m: nat, lines: string, endMarker: string, end: nat)
    requires IndexOf(readme, endMarker) == Some(end)
    requires m <= end
    requires endMarker != [] && '\n' !in endMarker
    requires !Contains(lines, endMarker)
    ensures IndexOf(readme[..m] + "\n" + lines + "\n" + readme[end..], endMarker)
         == Some(m + |lines| + 2)
  {
    var before := readme[..m];
    var head := before + "\n" + lines + "\n";
    var tail := readme[end..];
    var u := head + tail;
    var q := m + |lines| + 2;
    assert |head| == q;
    assert tail[..|endMarker|] == endMarker;
    OccursInSuffix(head, tail, endMarker, 0);
    forall j | 0 <= j < q
      ensures !OccursAt(u, endMarker, j)
    {
      NoEarlierEnd(readme, m, lines, endMarker, end, j);
    }
    IndexOfIs(u, endMarker, q);
  }

  /** Splicing the same lines into the spliced text changes nothing, when
      the start marker comes before the end marker and the lines do not
      hold the end marker. */
  lemma SpliceIdempotent(readme: string, lines: string, startMarker: string, endMarker: string)
    requires Splice(readme, lines, startMarker, endMarker).Written?
    requires IndexOf(readme, startMarker).value + |startMarker| <= IndexOf(readme, endMarker).value
    requires endMarker != [] && '\n' !in endMarker
    requires !Contains(lines, endMarker)
    ensures var o := Splice(readme, lines, startMarker, endMarker).readme;
            Splice(o, lines, startMarker, endMarker) == Written(o)
  {
    var o := Splice(readme, lines, startMarker, endMarker).readme;
    var start := IndexOf(readme, startMarker).value;
    var end := IndexOf(readme, endMarker).value;
    var m := start + |startMarker|;
    var before := readme[..m];
    var tail := readme[end..];
    var head := before + "\n" + lines + "\n";
    var q := m + |lines| + 2;
    assert o == head + tail;
    assert o == before + ("\n" + lines + "\n" + tail);
    StartFoundInSplice(readme, "\n" + lines + "\n" + tail, startMarker, start);
    EndFoundInSplice(readme, m, lines, endMarker, end);
    assert |head| == q && head[..m] == before;
    assert o[..m] == before;
    assert o[q..] == tail;
  }

  /** Running the script twice with the same updates gives the text of the
      first run. */
  lemma SyncIdempotent(readme: string, updates: seq<Update>)
    requires Sync(readme, updates).Written?
    requires IndexOf(readme, VERSION_START).value + |VERSION_START| <= IndexOf(readme, VERSION_END).value
    requires !Contains(Render(updates), VERSION_END)
    ensures Sync(Sync(readme, updates).readme, updates) == Sync(readme, updates)
  {
    assert '\n' !in VERSION_END;
    SpliceIdempotent(readme, Render(updates), VERSION_START, VERSION_END);
  }
}
