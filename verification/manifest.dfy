/**
 Parsing of the IAM `gt/words.txt` manifest into samples, derivation of each
 sample's image path, and the sorted alphabet of all kept transcriptions
 (src/dataloaderIAM.py, the constructor of `DataLoaderIAM`).
 */
module Manifest {
  import opened Results
  import opened PyText

  /** One labelled word image: its transcription and its image file path. */
  datatype Sample = Sample(gtText: string, filePath: string)

  /** A data line needs at least this many space-separated fields. */
  const MinFields: nat := 9
  /** The transcription starts at this field. */
  const TextField: nat := 8
  /** Ids of images known to be corrupt in the dataset. */
  const BrokenIds: seq<string> := ["a01-117-05-02", "r06-022-03-05"]

  /** What one manifest line contributes. */
  datatype LineOutcome =
    | Skip                  // blank or comment line
    | Broken(path: string)  // known-corrupt id: reported and ignored
    | Kept(sample: Sample)
    | Fail(error: Error)

  /** The image path `dataDir/img/<seg0>/<seg0>-<seg1>/<id>.png` of an id
      whose hyphen-separated segments start `seg0-seg1`; an id with no hyphen
      has no second segment and the subscript fails. */
  function ImagePath(dataDir: string, id: string): (r: Result<string>)
    ensures r.Ok? <==> '-' in id
    ensures r.Err? ==> r.error == MissingIdSegment(id)
  {
    var segs := Split(id, '-');
    if |segs| < 2 then
      assert Count(id, '-') == 0;
      NoOccurrence(id, '-');
      Err(MissingIdSegment(id))
    else
      Occurrence(id, '-');
      Ok(dataDir + "/img/" + segs[0] + "/" + segs[0] + "-" + segs[1] + "/" + id + ".png")
  }

  lemma {:induction false} NoOccurrence(s: string, c: char)
    requires Count(s, c) == 0
    ensures c !in s
  {
    if |s| > 0 {
      NoOccurrence(s[1..], c);
    }
  }

  lemma {:induction false} Occurrence(s: string, c: char)
    requires Count(s, c) > 0
    ensures c in s
  {
    if s[0] != c {
      Occurrence(s[1..], c);
    }
  }

  /** The path depends only on the first two segments of the id: for
      `id = a + "-" + b + rest`, with `a`, `b` hyphen-free and `rest` empty
      or starting with a further hyphen, the image lives in `img/a/a-b/`. */
  lemma ImagePathOfSegments(dataDir: string, a: string, b: string, rest: string)
    requires '-' !in a && '-' !in b
    requires rest == [] || rest[0] == '-'
    ensures var id := a + "-" + b + rest;
            ImagePath(dataDir, id) == Ok(dataDir + "/img/" + a + "/" + a + "-" + b + "/" + id + ".png")
  {
    var id := a + "-" + b + rest;
    assert id == a + ['-'] + (b + rest);
    SplitPrefix(a, b + rest, '-');
    if rest == [] {
      SplitNoSep(b, '-');
      assert b + rest == b;
      assert Split(id, '-') == [a, b];
    } else {
      assert b + rest == b + ['-'] + rest[1..];
      SplitPrefix(b, rest[1..], '-');
    }
  }

  /** The transcription: fields from `TextField` on, joined by single spaces. */
  function Transcription(fields: seq<string>): string
    requires |fields| >= MinFields
  {
    Join(' ', fields[TextField..])
  }

  /** The transcription of a data line is exactly the text after its eighth
      space: joining re-inserts the separators the split removed. */
  lemma TranscriptionIsLineSuffix(head: seq<string>, text: string)
    requires |head| == TextField
    requires forall i :: 0 <= i < |head| ==> ' ' !in head[i]
    ensures var fields := Split(Join(' ', head + [text]), ' ');
            |fields| >= MinFields && Transcription(fields) == text
  {
    var parts := head + Split(text, ' ');
    assert forall i :: 0 <= i < |parts| ==> ' ' !in parts[i];
    SplitJoin(parts, ' ');
    JoinSplit(text, ' ');
    JoinAppend(head, text);
    JoinAppendParts(head, Split(text, ' '));
    assert parts[TextField..] == Split(text, ' ');
  }

  lemma {:induction false} JoinAppend(head: seq<string>, text: string)
    requires |head| >= 1
    ensures Join(' ', head + [text]) == Join(' ', head) + " " + text
    decreases |head|
  {
    if |head| == 1 {
      assert head + [text] == [head[0], text];
    } else {
      assert (head + [text])[1..] == head[1..] + [text];
      JoinAppend(head[1..], text);
    }
  }

  lemma {:induction false} JoinAppendParts(head: seq<string>, tail: seq<string>)
    requires |head| >= 1 && |tail| >= 1
    ensures Join(' ', head + tail) == Join(' ', head) + " " + Join(' ', tail)
    decreases |head|
  {
    if |head| == 1 {
      assert (head + tail)[1..] == tail;
    } else {
      assert (head + tail)[1..] == head[1..] + tail;
      JoinAppendParts(head[1..], tail);
    }
  }

  /** The treatment of one raw manifest line, in the order of `DataLoaderIAM.__init__`:
      strip, skip blank and comment lines, split on single spaces, demand
      the minimum field count, derive the path, then drop known-broken ids. */
  function ParseLine(dataDir: string, raw: string): (r: LineOutcome)
    ensures Strip(raw) == [] || Strip(raw)[0] == '#' <==> r.Skip?
    ensures r.Fail? <==> !r.Skip? && (|Split(Strip(raw), ' ')| < MinFields || '-' !in Split(Strip(raw), ' ')[0])
    ensures r.Fail? ==> r.error == if |Split(Strip(raw), ' ')| < MinFields then TooFewFields(Strip(raw))
                                   else MissingIdSegment(Split(Strip(raw), ' ')[0])
    ensures r.Kept? ==>
              |Split(Strip(raw), ' ')| >= MinFields
              && r.sample.gtText == Transcription(Split(Strip(raw), ' '))
    ensures r.Broken? || r.Kept? ==>
              var id := Split(Strip(raw), ' ')[0];
              && '-' in id
              && (r.Broken? <==> id in BrokenIds)
              && ImagePath(dataDir, id) == Ok(if r.Broken? then r.path else r.sample.filePath)
  {
    var line := Strip(raw);
    if |line| == 0 || line[0] == '#' then Skip
    else
      var fields := Split(line, ' ');
      if |fields| < MinFields then Fail(TooFewFields(line))
      else
        match ImagePath(dataDir, fields[0])
        case Err(e) => Fail(e)
        case Ok(path) =>
          if fields[0] in BrokenIds then Broken(path)
          else Kept(Sample(Transcription(fields), path))
  }

  /** A kept line's transcription is never empty: the stripped line ends
      in a non-space, and the transcription is its last part. */
  lemma KeptTextNonEmpty(dataDir: string, raw: string)
    requires ParseLine(dataDir, raw).Kept?
    ensures |ParseLine(dataDir, raw).sample.gtText| > 0
  {
    LastFieldNonEmpty(Strip(raw));
  }

  lemma LastFieldNonEmpty(line: string)
    requires line != [] && !IsSpace(line[|line| - 1]) && |Split(line, ' ')| >= MinFields
    ensures |Transcription(Split(line, ' '))| > 0
  {
    var fields := Split(line, ' ');
    var pre := Join(' ', fields[..TextField]) + " ";
    assert line == pre + Transcription(fields) by {
      JoinSplit(line, ' ');
      SplitParts(fields, TextField);
      JoinAppendParts(fields[..TextField], fields[TextField..]);
    }
    assert pre[|pre| - 1] == ' ';
  }

  lemma SplitParts<T>(s: seq<T>, i: nat)
    requires i <= |s|
    ensures s == s[..i] + s[i..]
  {
  }

  /** A non-comment line with fewer than nine fields is an error, not a skip. */
  lemma ShortLineFails(dataDir: string, raw: string)
    requires Strip(raw) != [] && Strip(raw)[0] != '#'
    requires |Split(Strip(raw), ' ')| < MinFields
    ensures ParseLine(dataDir, raw) == Fail(TooFewFields(Strip(raw)))
  {
  }

  /** The outcome of every line of a manifest, line by line. */
  function Outcomes(dataDir: string, lines: seq<string>): (r: seq<LineOutcome>)
    ensures |r| == |lines|
    ensures forall i :: 0 <= i < |lines| ==> r[i] == ParseLine(dataDir, lines[i])
  {
    seq(|lines|, i requires 0 <= i < |lines| => ParseLine(dataDir, lines[i]))
  }

  /** The parse loop over line outcomes: kept samples in line order, the
      first failing line failing the whole parse. */
  function Collect(outs: seq<LineOutcome>): (r: Result<seq<Sample>>)
    ensures r.Ok? ==> |r.value| <= |outs| && forall i :: 0 <= i < |outs| ==> !outs[i].Fail?
    ensures r.Err? ==> exists i :: && 0 <= i < |outs| && outs[i] == Fail(r.error)
                                   && forall j :: 0 <= j < i ==> !outs[j].Fail?
    decreases |outs|
  {
    if |outs| == 0 then Ok([])
    else
      var n := |outs| - 1;
      assert forall j :: 0 <= j < n ==> outs[..n][j] == outs[j];
      match Collect(outs[..n])
      case Err(e) => Err(e)
      case Ok(prev) =>
        match outs[n]
        case Fail(e) => Err(e)
        case Kept(s) => Ok(prev + [s])
        case _ => Ok(prev)
  }

  /** The samples of a whole manifest. The parse succeeds exactly when no
      line of the manifest fails. */
  function Parse(dataDir: string, lines: seq<string>): (r: Result<seq<Sample>>)
    ensures r.Ok? <==> forall i :: 0 <= i < |lines| ==> !ParseLine(dataDir, lines[i]).Fail?
  {
    CollectOkIff(Outcomes(dataDir, lines));
    Collect(Outcomes(dataDir, lines))
  }

  /** The parse loop succeeds exactly when no line outcome is a failure. */
  lemma {:induction false} CollectOkIff(outs: seq<LineOutcome>)
    ensures Collect(outs).Ok? <==> forall i :: 0 <= i < |outs| ==> !outs[i].Fail?
    decreases |outs|
  {
    if |outs| > 0 {
      var n := |outs| - 1;
      CollectOkIff(outs[..n]);
      assert forall i :: 0 <= i < n ==> outs[..n][i] == outs[i];
    }
  }

  /** A line the loader accepts: blank, a comment, or a data line with at
      least nine fields whose id has a second hyphen-separated segment. */
  predicate WellFormedLine(raw: string) {
    var line := Strip(raw);
    line == [] || line[0] == '#' || (|Split(line, ' ')| >= MinFields && '-' in Split(line, ' ')[0])
  }

  /** A manifest loads exactly when every one of its lines is well formed. */
  lemma WellFormedManifestParses(dataDir: string, lines: seq<string>)
    ensures Parse(dataDir, lines).Ok? <==> forall i :: 0 <= i < |lines| ==> WellFormedLine(lines[i])
  {
    forall i | 0 <= i < |lines|
      ensures WellFormedLine(lines[i]) <==> !ParseLine(dataDir, lines[i]).Fail?
    {
    }
  }

  /** Every collected sample is the sample of some kept outcome. */
  lemma {:induction false} CollectedAreKept(outs: seq<LineOutcome>)
    requires Collect(outs).Ok?
    ensures forall s :: s in Collect(outs).value ==> exists i :: 0 <= i < |outs| && outs[i] == Kept(s)
    decreases |outs|
  {
    if |outs| > 0 {
      var n := |outs| - 1;
      CollectedAreKept(outs[..n]);
      assert forall i :: 0 <= i < n ==> outs[..n][i] == outs[i];
    }
  }

  /** Every parsed sample has a non-empty transcription. */
  lemma ParsedTextsNonEmpty(dataDir: string, lines: seq<string>)
    requires Parse(dataDir, lines).Ok?
    ensures forall s :: s in Parse(dataDir, lines).value ==> |s.gtText| > 0
  {
    var outs := Outcomes(dataDir, lines);
    CollectedAreKept(outs);
    forall s | s in Parse(dataDir, lines).value
      ensures |s.gtText| > 0
    {
      var i :| 0 <= i < |outs| && outs[i] == Kept(s);
      KeptTextNonEmpty(dataDir, lines[i]);
    }
  }

  /** A short data line anywhere in the manifest fails the whole parse: the
      loader cannot be constructed. */
  lemma ShortLineFailsParse(dataDir: string, lines: seq<string>, i: nat)
    requires i < |lines|
    requires Strip(lines[i]) != [] && Strip(lines[i])[0] != '#'
    requires |Split(Strip(lines[i]), ' ')| < MinFields
    ensures Parse(dataDir, lines).Err?
  {
    ShortLineFails(dataDir, lines[i]);
  }

  /** The parse loop distributes over concatenation. */
  lemma {:induction false} CollectConcat(a: seq<LineOutcome>, b: seq<LineOutcome>)
    requires Collect(a).Ok? && Collect(b).Ok?
    ensures Collect(a + b) == Ok(Collect(a).value + Collect(b).value)
    decreases |b|
  {
    if |b| == 0 {
      EmptyRight(a, b);
      EmptyRight(Collect(a).value, []);
    } else {
      var n := |b| - 1;
      LastSplit(a, b);
      CollectConcat(a, b[..n]);
      var pa, pn := Collect(a).value, Collect(b[..n]).value;
      match b[n]
      case Kept(smp) =>
        assert pa + (pn + [smp]) == (pa + pn) + [smp];
      case _ =>
    }
  }

  lemma EmptyRight<T>(a: seq<T>, b: seq<T>)
    requires |b| == 0
    ensures a + b == a
  {
  }

  lemma LastSplit<T>(a: seq<T>, b: seq<T>)
    requires |b| > 0
    ensures a + b == (a + b[..|b| - 1]) + [b[|b| - 1]]
    ensures b == b[..|b| - 1] + [b[|b| - 1]]
  {
  }

  lemma OutcomesConcat(dataDir: string, a: seq<string>, b: seq<string>)
    ensures Outcomes(dataDir, a + b) == Outcomes(dataDir, a) + Outcomes(dataDir, b)
  {
    var l, r := Outcomes(dataDir, a + b), Outcomes(dataDir, a) + Outcomes(dataDir, b);
    forall i | 0 <= i < |l|
      ensures l[i] == r[i]
    {
      if i < |a| {
        assert (a + b)[i] == a[i];
      } else {
        assert (a + b)[i] == b[i - |a|];
      }
    }
  }

  /** Parsing distributes over concatenation of manifests. */
  lemma ParseConcat(dataDir: string, a: seq<string>, b: seq<string>)
    requires Parse(dataDir, a).Ok? && Parse(dataDir, b).Ok?
    ensures Parse(dataDir, a + b) == Ok(Parse(dataDir, a).value + Parse(dataDir, b).value)
  {
    OutcomesConcat(dataDir, a, b);
    CollectConcat(Outcomes(dataDir, a), Outcomes(dataDir, b));
  }

  /** A blank line, a comment line or a known-broken id can be removed from
      anywhere in a manifest without changing the parse: they yield no sample. */
  lemma NoiseContributesNothing(dataDir: string, a: seq<string>, noise: string, b: seq<string>)
    requires ParseLine(dataDir, noise).Skip? || ParseLine(dataDir, noise).Broken?
    requires Parse(dataDir, a).Ok? && Parse(dataDir, b).Ok?
    ensures Parse(dataDir, a + [noise] + b) == Parse(dataDir, a + b)
  {
    SingleLine(dataDir, noise);
    ParseConcat(dataDir, a, [noise]);
    EmptyRight(Parse(dataDir, a).value, []);
    ParseConcat(dataDir, a + [noise], b);
    ParseConcat(dataDir, a, b);
  }

  /** A kept line contributes exactly its sample at its position. */
  lemma KeptLineContributesSample(dataDir: string, a: seq<string>, line: string, b: seq<string>)
    requires ParseLine(dataDir, line).Kept?
    requires Parse(dataDir, a).Ok? && Parse(dataDir, b).Ok?
    ensures Parse(dataDir, a + [line] + b)
            == Ok(Parse(dataDir, a).value + [ParseLine(dataDir, line).sample] + Parse(dataDir, b).value)
  {
    SingleLine(dataDir, line);
    ParseConcat(dataDir, a, [line]);
    ParseConcat(dataDir, a + [line], b);
  }

  /** A one-line manifest yields the sample of that line, if it keeps one. */
  lemma SingleLine(dataDir: string, line: string)
    ensures Parse(dataDir, [line])
            == match ParseLine(dataDir, line)
               case Fail(e) => Err(e)
               case Kept(s) => Ok([s])
               case _ => Ok([])
  {
    var o := ParseLine(dataDir, line);
    assert Outcomes(dataDir, [line]) == [o];
    assert [o][..0] == [];
    assert Collect([o][..0]) == Ok([]);
    match o
    case Kept(smp) =>
      assert Collect([o]) == Ok([] + [smp]);
      assert [] + [smp] == [smp];
    case _ =>
  }

  // ----- the alphabet ---------------------------------------------------

  ghost predicate StrictlySorted(xs: seq<char>) {
    forall i, j :: 0 <= i < j < |xs| ==> xs[i] < xs[j]
  }

  /** Inserts `c` into a strictly sorted list unless it is already there. */
  function Insert(xs: seq<char>, c: char): (r: seq<char>)
    requires StrictlySorted(xs)
    ensures StrictlySorted(r)
    ensures forall x :: x in r <==> x in xs || x == c
    decreases |xs|
  {
    if |xs| == 0 then [c]
    else if c == xs[0] then xs
    else if c < xs[0] then [c] + xs
    else
      var t := Insert(xs[1..], c);
      assert forall x :: x in xs <==> x == xs[0] || x in xs[1..];
      assert forall k :: 0 <= k < |t| ==> t[k] in t;
      [xs[0]] + t
  }

  /** Inserts every character of `text`. */
  function InsertAll(xs: seq<char>, text: string): (r: seq<char>)
    requires StrictlySorted(xs)
    ensures StrictlySorted(r)
    ensures forall x :: x in r <==> x in xs || x in text
    decreases |text|
  {
    if |text| == 0 then xs
    else
      var r := InsertAll(Insert(xs, text[0]), text[1..]);
      assert forall x :: x in text <==> x == text[0] || x in text[1..];
      r
  }

  ghost function CharSet(text: string): set<char> {
    set c | c in text
  }

  /** The set of characters occurring in the transcriptions of `samples`. */
  ghost function CharsOf(samples: seq<Sample>): set<char>
    decreases |samples|
  {
    if |samples| == 0 then {}
    else CharsOf(samples[..|samples| - 1]) + CharSet(samples[|samples| - 1].gtText)
  }

  /** `sorted(list(chars))`: the alphabet lists every character of every
      transcription, in strictly increasing code-point order, and nothing else. */
  function CharList(samples: seq<Sample>): (r: seq<char>)
    ensures StrictlySorted(r)
    ensures forall c :: c in r <==> c in CharsOf(samples)
    decreases |samples|
  {
    if |samples| == 0 then []
    else InsertAll(CharList(samples[..|samples| - 1]), samples[|samples| - 1].gtText)
  }

  /** Every character of every sample's transcription is in the alphabet. */
  lemma {:induction false} TextCharsInCharList(samples: seq<Sample>, i: nat, c: char)
    requires i < |samples| && c in samples[i].gtText
    ensures c in CharList(samples)
    decreases |samples|
  {
    var n := |samples| - 1;
    if i < n {
      TextCharsInCharList(samples[..n], i, c);
      assert samples[..n][i] == samples[i];
      assert c in CharsOf(samples[..n]);
    } else {
      assert c in CharSet(samples[n].gtText);
    }
    assert c in CharsOf(samples);
  }

  /** A strictly sorted list is determined by its elements, so `CharList` is
      the one and only sorted, duplicate-free listing of the character set. */
  lemma {:induction false} SortedListUnique(a: seq<char>, b: seq<char>)
    requires StrictlySorted(a) && StrictlySorted(b)
    requires forall x :: x in a <==> x in b
    ensures a == b
    decreases |a|
  {
    if |a| == 0 || |b| == 0 {
      SameMembersSameEmptiness(a, b);
    } else {
      assert a[0] in b;
      assert b[0] in a;
      if a[0] != b[0] {
        assert false;
      }
      forall x
        ensures x in a[1..] <==> x in b[1..]
      {
        SortedTailMembership(a, x);
        SortedTailMembership(b, x);
      }
      SortedListUnique(a[1..], b[1..]);
    }
  }

  lemma SameMembersSameEmptiness(a: seq<char>, b: seq<char>)
    requires forall x :: x in a <==> x in b
    ensures |a| == 0 <==> |b| == 0
  {
    if |a| > 0 {
      assert a[0] in b;
    }
    if |b| > 0 {
      assert b[0] in a;
    }
  }

  lemma SortedTailMembership(a: seq<char>, x: char)
    requires StrictlySorted(a) && |a| > 0
    ensures x in a[1..] <==> x in a && x != a[0]
  {
    if x in a[1..] {
      var k :| 0 <= k < |a[1..]| && a[1..][k] == x;
      assert a[k + 1] == x;
    }
    if x in a && x != a[0] {
      var k :| 0 <= k < |a| && a[k] == x;
      assert a[1..][k - 1] == x;
    }
  }
}
