/**
  The word-frequency list builder: split the corpus into lines, drop lines
  of at most one character, parse each line as `word\frequency`, drop
  non-positive frequencies, merge adjacent entries for the same word, sort
  by frequency (highest first) and join the first 20000 words with commas.
*/
module WordList {
  import opened Wrappers
  import opened Text

  datatype Element = Element(word: string, freq: int)

  /** The fatal errors of the pipeline: a forced unwrap of a missing field or number, or an empty list. */
  datatype Fatal = MissingFrequency(line: string) | BadFrequency(line: string) | NoWords

  const MaxWords: nat := 20000

  function Words(es: seq<Element>): (r: seq<string>)
    ensures |r| == |es|
    ensures forall i :: 0 <= i < |es| ==> r[i] == es[i].word
  {
    seq(|es|, i requires 0 <= i < |es| => es[i].word)
  }

  function Total(es: seq<Element>): int
  {
    if es == [] then 0 else es[0].freq + Total(es[1..])
  }

  /** The total frequency of a concatenation is the sum of the parts' totals. */
  lemma {:induction false} TotalAppend(a: seq<Element>, b: seq<Element>)
    ensures Total(a + b) == Total(a) + Total(b)
    decreases |a|
  {
    if a == [] {
      assert a + b == b;
    } else {
      TotalAppend(a[1..], b);
      HeadOfAppend(a, b);
    }
  }

  // ---- lines ----

  /** Keeps the lines longer than one character, in order. */
  function LongLines(lines: seq<string>): (r: seq<string>)
    ensures |r| <= |lines|
    ensures forall l :: l in r <==> l in lines && |l| > 1
  {
    if lines == [] then []
    else
      var rest := LongLines(lines[1..]);
      assert forall l :: l in lines <==> l == lines[0] || l in lines[1..];
      if |lines[0]| > 1 then [lines[0]] + rest else rest
  }

  /** Splitting the head off a concatenation whose left part is not empty. */
  lemma HeadOfAppend<T>(a: seq<T>, b: seq<T>)
    requires |a| > 0
    ensures (a + b)[0] == a[0] && (a + b)[1..] == a[1..] + b
  {
  }

  /** A non-empty sequence is its front followed by its last element. */
  lemma FrontAndLast<T>(s: seq<T>)
    requires |s| > 0
    ensures s == s[..|s| - 1] + [s[|s| - 1]]
  {
  }

  /**
    Filtering distributes over concatenation; with `LongLinesOne`, the kept
    lines are the long ones, in their order and with their repeats.
  */
  lemma {:induction false} LongLinesAppend(a: seq<string>, b: seq<string>)
    ensures LongLines(a + b) == LongLines(a) + LongLines(b)
    decreases |a|
  {
    if a == [] {
      assert a + b == b;
    } else {
      LongLinesAppend(a[1..], b);
      HeadOfAppend(a, b);
    }
  }

  /** A single line is kept exactly when it is longer than one character. */
  lemma LongLinesOne(l: string)
    ensures LongLines([l]) == if |l| > 1 then [l] else []
  {
    assert [l][1..] == [];
  }

  function KeptLines(text: string): seq<string>
  {
    LongLines(Split(text, '\n'))
  }

  // ---- parsing ----

  /** `word\frequency`; fields after the second are ignored. */
  function ParseLine(line: string): (r: Result<Element, Fatal>)
    ensures |Split(line, '\\')| < 2 ==> r == Err(MissingFrequency(line))
    ensures |Split(line, '\\')| >= 2 && ParseInt(Split(line, '\\')[1]).None? ==> r == Err(BadFrequency(line))
    ensures r.Ok? ==> r.value.word == Split(line, '\\')[0] && Some(r.value.freq) == ParseInt(Split(line, '\\')[1])
  {
    var fields := Split(line, '\\');
    if |fields| < 2 then Err(MissingFrequency(line))
    else
      match ParseInt(fields[1])
      case None => Err(BadFrequency(line))
      case Some(f) => Ok(Element(fields[0], f))
  }

  /** A line written as `word\frequency` parses back to the same entry. */
  lemma FormatThenParse(e: Element)
    requires '\\' !in e.word
    ensures ParseLine(e.word + ['\\'] + ShowInt(e.freq)) == Ok(e)
  {
    ParseShow(e.freq);
    var s := ShowInt(e.freq);
    assert '\\' !in s by {
      if e.freq < 0 { assert s[1..] == ShowNat(-e.freq); }
    }
    SplitField(e.word, '\\', s);
    SplitNoSeparator(s, '\\');
  }

  /** Parses every line in order; the first bad line is fatal. */
  function ParseLines(lines: seq<string>): (r: Result<seq<Element>, Fatal>)
    ensures r.Ok? <==> forall i :: 0 <= i < |lines| ==> ParseLine(lines[i]).Ok?
    ensures r.Ok? ==> |r.value| == |lines|
    ensures r.Ok? ==> forall i :: 0 <= i < |lines| ==> r.value[i] == ParseLine(lines[i]).value
    ensures r.Err? ==> exists i :: 0 <= i < |lines| && ParseLine(lines[i]).Err? && r.error == ParseLine(lines[i]).error
  {
    if lines == [] then Ok([])
    else
      var e :- ParseLine(lines[0]);
      var rest :- ParseLines(lines[1..]);
      assert forall i :: 1 <= i < |lines| ==> lines[i] == lines[1..][i - 1];
      Ok([e] + rest)
  }

  // ---- filtering ----

  /** Keeps the entries with a positive frequency, in order. */
  function Positive(es: seq<Element>): (r: seq<Element>)
    ensures |r| <= |es|
  {
    if es == [] then [] else (if es[0].freq > 0 then [es[0]] else []) + Positive(es[1..])
  }

  /** The kept entries are exactly the entries with a positive frequency. */
  lemma {:induction false} PositiveMembers(es: seq<Element>)
    ensures forall e :: e in Positive(es) <==> e in es && e.freq > 0
    decreases |es|
  {
    if es != [] {
      PositiveMembers(es[1..]);
      assert forall e :: e in es <==> e == es[0] || e in es[1..];
    }
  }

  /**
    Filtering distributes over concatenation; with `PositiveOne`, the kept
    entries are the positive ones, in their order and with their repeats.
  */
  lemma {:induction false} PositiveAppend(a: seq<Element>, b: seq<Element>)
    ensures Positive(a + b) == Positive(a) + Positive(b)
    decreases |a|
  {
    if a == [] {
      assert a + b == b;
    } else {
      PositiveAppend(a[1..], b);
      HeadOfAppend(a, b);
    }
  }

  /** A single entry is kept exactly when its frequency is positive. */
  lemma PositiveOne(e: Element)
    ensures Positive([e]) == if e.freq > 0 then [e] else []
  {
    assert [e][1..] == [];
  }

  // ---- merging ----

  predicate NoAdjacentDuplicates(es: seq<Element>)
  {
    forall k :: 0 < k < |es| ==> es[k - 1].word != es[k].word
  }

  function Combine(a: Element, b: Element): Element
  {
    Element(a.word, a.freq + b.freq)
  }

  /**
    The evident intent of the merge loop: every run of adjacent entries for
    the same word becomes one entry, first in the run, whose frequency is the
    run's sum. The total frequency is kept and the list never grows.
  */
  function MergeRuns(es: seq<Element>): (r: seq<Element>)
    ensures |r| <= |es|
    ensures |es| > 0 ==> |r| > 0 && r[0].word == es[0].word
    ensures Total(r) == Total(es)
    ensures NoAdjacentDuplicates(r)
    decreases |es|
  {
    if |es| <= 1 then es
    else if es[0].word == es[1].word then
      assert Total(es) == es[0].freq + es[1].freq + Total(es[2..]) by {
        assert es[1..][1..] == es[2..];
      }
      MergeRuns([Combine(es[0], es[1])] + es[2..])
    else
      [es[0]] + MergeRuns(es[1..])
  }

  /** The words of the merged list are the input's words with adjacent repeats removed. */
  function DedupAdjacent(ws: seq<string>): seq<string>
    decreases |ws|
  {
    if |ws| <= 1 then ws
    else if ws[0] == ws[1] then DedupAdjacent(ws[1..])
    else [ws[0]] + DedupAdjacent(ws[1..])
  }

  lemma {:induction false} MergeRunsWords(es: seq<Element>)
    ensures Words(MergeRuns(es)) == DedupAdjacent(Words(es))
    decreases |es|
  {
    if |es| >= 2 {
      if es[0].word == es[1].word {
        var es' := [Combine(es[0], es[1])] + es[2..];
        MergeRunsWords(es');
        assert Words(es')[1..] == Words(es)[2..];
        assert Words(es') == Words(es)[1..] by {
          assert Words(es)[1..][1..] == Words(es)[2..];
        }
      } else {
        MergeRunsWords(es[1..]);
        assert Words(es)[1..] == Words(es[1..]);
        assert Words([es[0]] + MergeRuns(es[1..])) == [es[0].word] + Words(MergeRuns(es[1..]));
      }
    }
  }

  lemma {:induction false} DedupAdjacentKeepsWords(ws: seq<string>)
    ensures forall w :: w in DedupAdjacent(ws) ==> w in ws
    decreases |ws|
  {
    if |ws| >= 2 {
      DedupAdjacentKeepsWords(ws[1..]);
    }
  }

  /** Merging introduces no word the input did not hold. */
  lemma MergeRunsKeepsWords(es: seq<Element>, e: Element)
    requires e in MergeRuns(es)
    ensures e.word in Words(es)
  {
    MergeRunsWords(es);
    DedupAdjacentKeepsWords(Words(es));
    var i :| 0 <= i < |MergeRuns(es)| && MergeRuns(es)[i] == e;
    assert Words(MergeRuns(es))[i] == e.word;
  }

  /** A list without adjacent repeats is left as it is. */
  lemma {:induction false} MergeRunsOfMerged(es: seq<Element>)
    requires NoAdjacentDuplicates(es)
    ensures MergeRuns(es) == es
    decreases |es|
  {
    if |es| >= 2 {
      MergeRunsOfMerged(es[1..]);
      assert [es[0]] + es[1..] == es;
    }
  }

  /** No two adjacent entries among the first `n` share a word. */
  predicate NoRepeatsBelow(c: seq<Element>, n: int)
  {
    forall k :: 0 < k < n && k < |c| ==> c[k - 1].word != c[k].word
  }

  /** Entry `i - 1` with entry `i` folded into it. */
  function FoldAt(c: seq<Element>, i: nat): (r: seq<Element>)
    requires 1 <= i < |c|
    ensures |r| == |c| - 1
    ensures forall k :: 0 <= k < i - 1 ==> r[k] == c[k]
    ensures r[i - 1] == Combine(c[i - 1], c[i])
    ensures forall k :: i <= k < |r| ==> r[k] == c[k + 1]
  {
    c[..i - 1] + [Combine(c[i - 1], c[i])] + c[i + 1..]
  }

  /** Folding entry `i` into entry `i - 1` does not change the merged result. */
  lemma {:induction false} MergeStep(c: seq<Element>, i: nat)
    requires 1 <= i < |c| && c[i - 1].word == c[i].word
    requires NoRepeatsBelow(c, i)
    ensures MergeRuns(FoldAt(c, i)) == MergeRuns(c)
    decreases i
  {
    var c' := FoldAt(c, i);
    if i == 1 {
      assert c' == [Combine(c[0], c[1])] + c[2..];
    } else {
      assert c[0].word != c[1].word;
      var t := c[1..];
      assert NoRepeatsBelow(t, i - 1);
      MergeStep(t, i - 1);
      assert c'[1..] == FoldAt(t, i - 1);
      assert c'[1].word == c[1].word;
      assert c' == [c[0]] + c'[1..];
    }
  }

  /**
    The merge loop as it should read, `while i < count`: it folds every
    adjacent repeat into the entry before it.
  */
  method MergeAdjacent(es: seq<Element>) returns (c: seq<Element>)
    ensures c == MergeRuns(es)
    ensures NoAdjacentDuplicates(c) && Total(c) == Total(es)
  {
    c := es;
    var i := 1;
    while i < |c|
      invariant |c| == 0 <==> |es| == 0
      invariant 1 <= i && (|c| > 0 ==> i <= |c|)
      invariant MergeRuns(c) == MergeRuns(es)
      invariant NoRepeatsBelow(c, i)
      decreases |c| - i
    {
      if c[i].word == c[i - 1].word {
        MergeStep(c, i);
        c := FoldAt(c, i);
      } else {
        i := i + 1;
      }
    }
    MergeRunsOfMerged(c);
  }

  /**
    The merge loop as written, `while i < count - 1`: the last entry is never
    compared with the one before it, so only the entries before it are merged.
  */
  function MergeAsWritten(es: seq<Element>): (r: seq<Element>)
    ensures |r| <= |es|
    ensures |r| == 0 <==> |es| == 0
    ensures Total(r) == Total(es)
  {
    if |es| == 0 then []
    else
      var p, x := es[..|es| - 1], es[|es| - 1];
      assert es == p + [x];
      TotalAppend(p, [x]);
      TotalAppend(MergeRuns(p), [x]);
      MergeRuns(p) + [x]
  }

  method MergeAdjacentAsWritten(es: seq<Element>) returns (c: seq<Element>)
    ensures c == MergeAsWritten(es)
    ensures |es| > 0 ==> |c| > 0 && c[|c| - 1] == es[|es| - 1]
    ensures Total(c) == Total(es)
  {
    c := es;
    var i := 1;
    if |es| == 0 {
      return;
    }
    while i < |c| - 1
      invariant |c| > 0 && c[|c| - 1] == es[|es| - 1]
      invariant 1 <= i <= |c|
      invariant MergeRuns(c[..|c| - 1]) == MergeRuns(es[..|es| - 1])
      invariant NoRepeatsBelow(c, i)
      decreases |c| - i
    {
      if c[i].word == c[i - 1].word {
        FoldBeforeLast(c, i);
        FoldKeepsNoRepeats(c, i);
        c := FoldAt(c, i);
      } else {
        i := i + 1;
      }
    }
    MergedAsWritten(es, c, i);
  }

  /** When the loop stops, everything before the last entry is merged and the last entry is the input's. */
  lemma MergedAsWritten(es: seq<Element>, c: seq<Element>, i: nat)
    requires |es| > 0 && |c| > 0 && c[|c| - 1] == es[|es| - 1]
    requires |c| - 1 <= i && NoRepeatsBelow(c, i)
    requires MergeRuns(c[..|c| - 1]) == MergeRuns(es[..|es| - 1])
    ensures c == MergeAsWritten(es)
  {
    var p := c[..|c| - 1];
    assert NoAdjacentDuplicates(p);
    MergeRunsOfMerged(p);
    assert c == p + [c[|c| - 1]];
  }

  /** A fold before the last entry leaves the last entry alone and the merge of the rest unchanged. */
  lemma FoldBeforeLast(c: seq<Element>, i: nat)
    requires 1 <= i < |c| - 1 && c[i - 1].word == c[i].word
    requires NoRepeatsBelow(c, i)
    ensures var f := FoldAt(c, i);
      f[|f| - 1] == c[|c| - 1] && MergeRuns(f[..|f| - 1]) == MergeRuns(c[..|c| - 1])
  {
    var p := c[..|c| - 1];
    MergeStep(p, i);
    assert FoldAt(c, i)[..|c| - 2] == FoldAt(p, i);
  }

  /** Folding entry `i` into entry `i - 1` keeps the prefix free of repeats. */
  lemma FoldKeepsNoRepeats(c: seq<Element>, i: nat)
    requires 1 <= i < |c| && c[i - 1].word == c[i].word
    requires NoRepeatsBelow(c, i)
    ensures NoRepeatsBelow(FoldAt(c, i), i)
  {
  }

  /** The merged list ends with the word the input ends with. */
  lemma {:induction false} DedupAdjacentLast(ws: seq<string>)
    requires |ws| > 0
    ensures |DedupAdjacent(ws)| > 0 && DedupAdjacent(ws)[|DedupAdjacent(ws)| - 1] == ws[|ws| - 1]
    decreases |ws|
  {
    if |ws| >= 2 {
      DedupAdjacentLast(ws[1..]);
    }
  }

  lemma MergeRunsLast(es: seq<Element>)
    requires |es| > 0
    ensures |MergeRuns(es)| > 0 && MergeRuns(es)[|MergeRuns(es)| - 1].word == es[|es| - 1].word
  {
    MergeRunsWords(es);
    DedupAdjacentLast(Words(es));
  }

  /** An entry whose word differs from the last one's is appended unmerged. */
  lemma {:induction false} MergeRunsSnoc(p: seq<Element>, x: Element)
    requires |p| == 0 || p[|p| - 1].word != x.word
    ensures MergeRuns(p + [x]) == MergeRuns(p) + [x]
    decreases |p|
  {
    if |p| == 1 {
      assert p + [x] == [p[0], x];
      assert [p[0], x][1..] == [x];
    } else if |p| >= 2 {
      HeadOfAppend(p, [x]);
      if p[0].word == p[1].word {
        var q := [Combine(p[0], p[1])] + p[2..];
        assert (p + [x])[2..] == p[2..] + [x];
        assert [Combine(p[0], p[1])] + (p + [x])[2..] == q + [x];
        MergeRunsSnoc(q, x);
      } else {
        MergeRunsSnoc(p[1..], x);
      }
    }
  }

  /** The last two entries share a word. */
  predicate TrailingRepeat(es: seq<Element>)
  {
    |es| >= 2 && es[|es| - 2].word == es[|es| - 1].word
  }

  /** When the last two entries share a word, the loop as written leaves them adjacent. */
  lemma MergeAsWrittenKeepsTrailingRepeat(es: seq<Element>)
    requires TrailingRepeat(es)
    ensures !NoAdjacentDuplicates(MergeAsWritten(es))
  {
    var p, x := es[..|es| - 1], es[|es| - 1];
    assert p[|p| - 1] == es[|es| - 2];
    MergeRunsLast(p);
    var m, mp := MergeAsWritten(es), MergeRuns(p);
    assert m == mp + [x];
    assert m[|m| - 2] == mp[|mp| - 1] && m[|m| - 1] == x;
  }

  /**
    The loop as written agrees with the intended merge exactly when the last
    two entries carry different words.
  */
  lemma MergeAsWrittenAgrees(es: seq<Element>)
    ensures MergeAsWritten(es) == MergeRuns(es) <==> !TrailingRepeat(es)
  {
    if !TrailingRepeat(es) {
      if |es| > 0 {
        FrontAndLast(es);
        MergeRunsSnoc(es[..|es| - 1], es[|es| - 1]);
      }
    } else {
      MergeAsWrittenKeepsTrailingRepeat(es);
    }
  }

  /** The loop as written introduces no word the input did not hold. */
  lemma MergeAsWrittenKeepsWords(es: seq<Element>, e: Element)
    requires e in MergeAsWritten(es)
    ensures e.word in Words(es)
  {
    var p := es[..|es| - 1];
    if e in MergeRuns(p) {
      MergeRunsKeepsWords(p, e);
      var j :| 0 <= j < |p| && Words(p)[j] == e.word;
      assert Words(es)[j] == e.word;
    } else {
      assert Words(es)[|es| - 1] == e.word;
    }
  }

  /** Two entries for the same word at the very end survive the loop as written. */
  lemma TrailingDuplicateSurvives()
    ensures var es := [Element("a", 1), Element("a", 2)];
      MergeAsWritten(es) == es && !NoAdjacentDuplicates(MergeAsWritten(es))
      && MergeRuns(es) == [Element("a", 3)]
  {
    var es := [Element("a", 1), Element("a", 2)];
    assert es[..1] == [Element("a", 1)];
    assert MergeRuns([Combine(es[0], es[1])] + es[2..]) == [Element("a", 3)];
  }

  // ---- sorting ----

  predicate SortedByFrequency(es: seq<Element>)
  {
    forall i, j :: 0 <= i < j < |es| ==> es[i].freq >= es[j].freq
  }

  function Insert(x: Element, s: seq<Element>): (r: seq<Element>)
    requires SortedByFrequency(s)
    ensures SortedByFrequency(r)
    ensures multiset(r) == multiset(s) + multiset{x}
    ensures forall e :: e in r ==> e == x || e in s
  {
    if |s| == 0 then [x]
    else if x.freq >= s[0].freq then
      assert s == [s[0]] + s[1..];
      [x] + s
    else
      var rest := Insert(x, s[1..]);
      assert s == [s[0]] + s[1..];
      ConsSorted(s[0], rest);
      [s[0]] + rest
  }

  /** A head no less frequent than every entry of a sorted tail keeps the list sorted. */
  lemma ConsSorted(h: Element, rest: seq<Element>)
    requires SortedByFrequency(rest)
    requires forall e :: e in rest ==> h.freq >= e.freq
    ensures SortedByFrequency([h] + rest)
  {
    var r := [h] + rest;
    forall i, j | 0 <= i < j < |r| ensures r[i].freq >= r[j].freq {
      assert r[j] == rest[j - 1];
      if i > 0 { assert r[i] == rest[i - 1]; }
    }
  }

  /** Highest frequency first; the order among equal frequencies is not specified. */
  function SortByFrequency(es: seq<Element>): (r: seq<Element>)
    ensures SortedByFrequency(r)
    ensures multiset(r) == multiset(es)
  {
    if |es| == 0 then []
    else
      assert es == [es[0]] + es[1..];
      Insert(es[0], SortByFrequency(es[1..]))
  }

  // ---- output ----

  function Min(a: int, b: int): int
  {
    if a < b then a else b
  }

  /** The words kept for the output: the first `min(20000, n)`. */
  function TopWords(sorted: seq<Element>): (r: seq<string>)
    ensures |r| == Min(MaxWords, |sorted|) && |r| <= MaxWords
  {
    Words(sorted)[..Min(MaxWords, |sorted|)]
  }

  /** The first word is read unconditionally, so an empty list is fatal. */
  function Output(sorted: seq<Element>): (r: Result<string, Fatal>)
    ensures r.Err? <==> |sorted| == 0
    ensures r.Err? ==> r.error == NoWords
  {
    if |sorted| == 0 then Err(NoWords) else Ok(Join(TopWords(sorted), ','))
  }

  /** The joining loop: the first word, then `,` and each next word up to the limit. */
  method JoinTop(sorted: seq<Element>) returns (r: Result<string, Fatal>)
    ensures r == Output(sorted)
  {
    if |sorted| == 0 {
      return Err(NoWords);
    }
    var out := sorted[0].word;
    var n := Min(MaxWords, |sorted|);
    assert Words(sorted)[..1] == [sorted[0].word];
    for i := 1 to n
      invariant out == Join(Words(sorted)[..i], ',')
    {
      JoinSnoc(Words(sorted)[..i], sorted[i].word, ',');
      assert Words(sorted)[..i + 1] == Words(sorted)[..i] + [sorted[i].word];
      out := out + "," + sorted[i].word;
    }
    return Ok(out);
  }

  /** When no word holds a comma, the output splits back into exactly the kept words. */
  lemma OutputSplitsIntoTopWords(sorted: seq<Element>)
    requires |sorted| > 0
    requires forall i :: 0 <= i < |sorted| ==> ',' !in sorted[i].word
    ensures Split(Output(sorted).value, ',') == TopWords(sorted)
    ensures |Split(Output(sorted).value, ',')| <= MaxWords
  {
    SplitJoin(TopWords(sorted), ',');
  }

  // ---- pipeline ----

  /** The merge the builder applies: the loop as written, or as intended. */
  function Merge(es: seq<Element>, intended: bool): (r: seq<Element>)
    ensures |r| == 0 <==> |es| == 0
    ensures Total(r) == Total(es)
  {
    if intended then MergeRuns(es) else MergeAsWritten(es)
  }

  lemma MergeKeepsWords(es: seq<Element>, intended: bool, e: Element)
    requires e in Merge(es, intended)
    ensures e.word in Words(es)
  {
    if intended {
      MergeRunsKeepsWords(es, e);
    } else {
      MergeAsWrittenKeepsWords(es, e);
    }
  }

  function BuildWith(text: string, intended: bool): Result<string, Fatal>
  {
    var elements :- ParseLines(KeptLines(text));
    Output(SortByFrequency(Merge(Positive(elements), intended)))
  }

  /** The builder as written: its merge loop stops before the last entry. */
  function Build(text: string): Result<string, Fatal>
  {
    BuildWith(text, false)
  }

  /** The builder with every run of adjacent repeats merged. */
  function BuildIntended(text: string): Result<string, Fatal>
  {
    BuildWith(text, true)
  }

  /** With every line well formed, the build is the output of the merged positive entries. */
  lemma BuildWithParsed(text: string, intended: bool)
    requires ParseLines(KeptLines(text)).Ok?
    ensures BuildWith(text, intended) == Output(SortByFrequency(Merge(Positive(ParseLines(KeptLines(text)).value), intended)))
  {
  }

  /** With every line well formed, the build fails exactly when no entry has a positive frequency. */
  lemma BuildFailsOnlyWithoutWords(text: string, intended: bool)
    requires ParseLines(KeptLines(text)).Ok?
    ensures BuildWith(text, intended).Err? <==> Positive(ParseLines(KeptLines(text)).value) == []
    ensures BuildWith(text, intended).Err? ==> BuildWith(text, intended).error == NoWords
  {
    var merged := Merge(Positive(ParseLines(KeptLines(text)).value), intended);
    assert |SortByFrequency(merged)| == |merged| by {
      assert |multiset(SortByFrequency(merged))| == |multiset(merged)|;
    }
  }

  /**
    The two builders differ only when the last two positive entries share a
    word; otherwise they produce the same list.
  */
  lemma BuildAgreesWithoutTrailingRepeat(text: string)
    requires ParseLines(KeptLines(text)).Ok?
    requires !TrailingRepeat(Positive(ParseLines(KeptLines(text)).value))
    ensures Build(text) == BuildIntended(text)
  {
    var ps := Positive(ParseLines(KeptLines(text)).value);
    assert Merge(ps, false) == Merge(ps, true) by {
      MergeAsWrittenAgrees(ps);
    }
    BuildWithParsed(text, false);
    BuildWithParsed(text, true);
  }

  /** The corpus `a\1`, `a\2` keeps both lines. */
  lemma TwoLinesKept()
    ensures KeptLines("a\\1\na\\2") == ["a\\1", "a\\2"]
  {
    var l1, l2 := "a\\1", "a\\2";
    assert "a\\1\na\\2" == l1 + ['\n'] + l2;
    SplitField(l1, '\n', l2);
    SplitNoSeparator(l2, '\n');
    LongLinesAppend([l1], [l2]);
    LongLinesOne(l1);
    LongLinesOne(l2);
  }

  /** A line `a\d` for a digit `d` parses to the entry (a, d). */
  lemma DigitLineParses(d: nat)
    requires d < 10
    ensures ParseLine("a" + ['\\', Text.DigitChar(d)]) == Ok(Element("a", d))
  {
    assert ShowInt(d) == [Text.DigitChar(d)];
    assert "a" + ['\\'] + ShowInt(d) == "a" + ['\\', Text.DigitChar(d)];
    FormatThenParse(Element("a", d));
  }

  lemma TwoLinesParse()
    ensures ParseLines(["a\\1", "a\\2"]) == Ok([Element("a", 1), Element("a", 2)])
  {
    var l1, l2 := "a\\1", "a\\2";
    DigitLineParses(1);
    DigitLineParses(2);
    assert l1 == "a" + ['\\', Text.DigitChar(1)] && l2 == "a" + ['\\', Text.DigitChar(2)];
    assert ParseLine(l1) == Ok(Element("a", 1)) && ParseLine(l2) == Ok(Element("a", 2));
    var r := ParseLines([l1, l2]);
    assert r.Ok? && |r.value| == 2;
    assert r.value[0] == Element("a", 1) && r.value[1] == Element("a", 2);
    assert r.value == [Element("a", 1), Element("a", 2)];
  }

  lemma JoinTwice()
    ensures Join(["a", "a"], ',') == "a,a"
  {
    assert ["a", "a"][1..] == ["a"];
    assert Join(["a"], ',') == "a";
    assert "a" + [','] + "a" == "a,a";
  }

  /** Both lines of the corpus `a\1`, `a\2` reach the merge, in order. */
  lemma TwoLinesReachMerge()
    ensures ParseLines(KeptLines("a\\1\na\\2")) == Ok([Element("a", 1), Element("a", 2)])
    ensures Positive([Element("a", 1), Element("a", 2)]) == [Element("a", 1), Element("a", 2)]
  {
    TwoLinesKept();
    TwoLinesParse();
    PositiveAppend([Element("a", 1)], [Element("a", 2)]);
    PositiveOne(Element("a", 1));
    PositiveOne(Element("a", 2));
  }

  lemma OutputOfTwo()
    ensures Output(SortByFrequency([Element("a", 1), Element("a", 2)])) == Ok("a,a")
  {
    var e1, e2 := Element("a", 1), Element("a", 2);
    assert [e1, e2][1..] == [e2] && [e2][1..] == [];
    assert SortByFrequency([e1, e2]) == [e2, e1];
    assert TopWords([e2, e1]) == ["a", "a"];
    JoinTwice();
  }

  lemma OutputOfOne()
    ensures Output(SortByFrequency([Element("a", 3)])) == Ok("a")
  {
    var e3 := Element("a", 3);
    assert SortByFrequency([e3]) == [e3];
    assert TopWords([e3]) == ["a"];
  }

  /** Two lines for the same word at the end of the corpus: the written builder lists the word twice. */
  lemma BuildKeepsTrailingRepeat()
    ensures Build("a\\1\na\\2") == Ok("a,a")
  {
    var es := [Element("a", 1), Element("a", 2)];
    TwoLinesReachMerge();
    TrailingDuplicateSurvives();
    assert Build("a\\1\na\\2") == Output(SortByFrequency(MergeAsWritten(es)));
    OutputOfTwo();
  }

  /** The same corpus through the corrected merge lists the word once. */
  lemma BuildIntendedMergesTrailingRepeat()
    ensures BuildIntended("a\\1\na\\2") == Ok("a")
  {
    var es := [Element("a", 1), Element("a", 2)];
    TwoLinesReachMerge();
    TrailingDuplicateSurvives();
    assert BuildIntended("a\\1\na\\2") == Output(SortByFrequency(MergeRuns(es)));
    OutputOfOne();
  }

  /** A kept line holds only characters of the corpus. */
  lemma KeptLineChars(text: string, line: string)
    requires line in KeptLines(text)
    ensures forall c :: c in line ==> c in text
  {
    assert line in Split(text, '\n');
    var n :| 0 <= n < |Split(text, '\n')| && Split(text, '\n')[n] == line;
  }

  /** The line a parsed entry came from; its word is that line's first field. */
  lemma ParsedLine(lines: seq<string>, e: Element) returns (line: string)
    requires ParseLines(lines).Ok? && e in ParseLines(lines).value
    ensures line in lines && Split(line, '\\')[0] == e.word
  {
    var k :| 0 <= k < |ParseLines(lines).value| && ParseLines(lines).value[k] == e;
    assert ParseLine(lines[k]).value == e;
    line := lines[k];
  }

  /** The kept line an entry that survives filtering and merging came from. */
  lemma EntryLine(text: string, intended: bool, e: Element) returns (line: string)
    requires ParseLines(KeptLines(text)).Ok?
    requires e in Merge(Positive(ParseLines(KeptLines(text)).value), intended)
    ensures line in KeptLines(text) && Split(line, '\\')[0] == e.word
  {
    var lines := KeptLines(text);
    var elements := ParseLines(lines).value;
    var positive := Positive(elements);
    MergeKeepsWords(positive, intended, e);
    var j :| 0 <= j < |positive| && Words(positive)[j] == e.word;
    var x := positive[j];
    assert x in positive && x.word == e.word;
    PositiveMembers(elements);
    line := ParsedLine(lines, x);
  }

  /** Every entry that survives filtering and merging came from the first field of a kept line. */
  lemma EntryFromLine(text: string, intended: bool, e: Element)
    requires ParseLines(KeptLines(text)).Ok?
    requires e in Merge(Positive(ParseLines(KeptLines(text)).value), intended)
    ensures exists line :: line in KeptLines(text) && Split(line, '\\')[0] == e.word
    ensures forall c :: c in e.word ==> c in text
  {
    var line := EntryLine(text, intended, e);
    KeptLineChars(text, line);
  }

  /** The entries of a reordering of the merged list carry words from kept lines. */
  lemma SortedWordsFromLines(text: string, intended: bool, sorted: seq<Element>)
    requires ParseLines(KeptLines(text)).Ok?
    requires multiset(sorted) == multiset(Merge(Positive(ParseLines(KeptLines(text)).value), intended))
    ensures forall i :: 0 <= i < |sorted| ==> forall c :: c in sorted[i].word ==> c in text
    ensures forall w :: w in Words(sorted) ==>
      exists line :: line in KeptLines(text) && Split(line, '\\')[0] == w
  {
    SortedEntriesFromLines(text, intended, sorted);
    forall w | w in Words(sorted)
      ensures exists line :: line in KeptLines(text) && Split(line, '\\')[0] == w
    {
      var i :| 0 <= i < |sorted| && Words(sorted)[i] == w;
    }
  }

  lemma SortedEntriesFromLines(text: string, intended: bool, sorted: seq<Element>)
    requires ParseLines(KeptLines(text)).Ok?
    requires multiset(sorted) == multiset(Merge(Positive(ParseLines(KeptLines(text)).value), intended))
    ensures forall i :: 0 <= i < |sorted| ==>
      (exists line :: line in KeptLines(text) && Split(line, '\\')[0] == sorted[i].word)
      && forall c :: c in sorted[i].word ==> c in text
  {
    forall i | 0 <= i < |sorted|
      ensures exists line :: line in KeptLines(text) && Split(line, '\\')[0] == sorted[i].word
      ensures forall c :: c in sorted[i].word ==> c in text
    {
      assert sorted[i] in multiset(sorted);
      EntryFromLine(text, intended, sorted[i]);
    }
  }

  /**
    A corpus without commas yields at most 20000 words, each the first field
    of some kept line.
  */
  lemma BuildOutputWords(text: string, intended: bool)
    requires BuildWith(text, intended).Ok? && ',' !in text
    ensures |Split(BuildWith(text, intended).value, ',')| <= MaxWords
    ensures forall w :: w in Split(BuildWith(text, intended).value, ',') ==>
      exists line :: line in KeptLines(text) && Split(line, '\\')[0] == w
  {
    var merged := Merge(Positive(ParseLines(KeptLines(text)).value), intended);
    var sorted := SortByFrequency(merged);
    assert BuildWith(text, intended) == Output(sorted);
    SortedWordsFromLines(text, intended, sorted);
    OutputSplitsIntoTopWords(sorted);
    assert forall w :: w in TopWords(sorted) ==> w in Words(sorted);
  }
}
