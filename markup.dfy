/**
 * The emphasis markup of result descriptions: the text is split on `*`
 * and every odd-numbered segment is rendered emphasised, so `*...*`
 * marks an emphasised span.
 */
module Markup {

  /** A rendered piece of a description. */
  datatype Span = Plain(text: string) | Emphasised(text: string)

  /** Number of `*` markers in `s`. */
  function StarCount(s: string): nat
  {
    if s == [] then 0 else (if s[0] == '*' then 1 else 0) + StarCount(s[1..])
  }

  /** `s` with every `*` removed. */
  function RemoveStars(s: string): string
  {
    if s == [] then [] else (if s[0] == '*' then [] else [s[0]]) + RemoveStars(s[1..])
  }

  /** The segments laid end to end. */
  function Concat(parts: seq<string>): string
  {
    if parts == [] then [] else parts[0] + Concat(parts[1..])
  }

  /** `text.split('*')`: the maximal `*`-free runs between markers, empty ones included. */
  function Split(s: string): (parts: seq<string>)
    ensures |parts| >= 1
    ensures forall i :: 0 <= i < |parts| ==> '*' !in parts[i]
  {
    if s == [] then [""]
    else
      var rest := Split(s[1..]);
      if s[0] == '*' then [""] + rest
      else [[s[0]] + rest[0]] + rest[1..]
  }

  /** `parts.join('*')`, the inverse of `Split`. */
  function Join(parts: seq<string>): string
  {
    if parts == [] then "" else if |parts| == 1 then parts[0] else parts[0] + "*" + Join(parts[1..])
  }

  /** The spans `HighlightText` renders: odd-indexed segments are emphasised. */
  function Highlight(text: string): (spans: seq<Span>)
    ensures |spans| == StarCount(text) + 1
    ensures |spans| == |Split(text)| && forall i :: 0 <= i < |spans| ==> spans[i].text == Split(text)[i]
    ensures forall i :: 0 <= i < |spans| ==> (spans[i].Emphasised? <==> i % 2 == 1)
    ensures forall i :: 0 <= i < |spans| ==> '*' !in spans[i].text
    ensures Rendered(spans) == RemoveStars(text)
  {
    var parts := Split(text);
    SplitCount(text);
    SplitConcat(text);
    var spans := seq(|parts|, i requires 0 <= i < |parts| =>
                   if i % 2 == 1 then Emphasised(parts[i]) else Plain(parts[i]));
    RenderedTexts(spans, parts);
    spans
  }

  /** `text` renders as `parts` in order, the odd-indexed ones emphasised and the others plain. */
  predicate RendersAs(text: string, parts: seq<string>)
  {
    && |Highlight(text)| == |parts|
    && forall i :: 0 <= i < |parts| ==>
         Highlight(text)[i] == (if i % 2 == 1 then Emphasised(parts[i]) else Plain(parts[i]))
  }

  /** A text renders as the segments it splits into. */
  lemma HighlightParts(text: string, parts: seq<string>)
    requires Split(text) == parts
    ensures RendersAs(text, parts)
  {
  }

  /** The visible text of a run of spans. */
  function Rendered(spans: seq<Span>): string
  {
    if spans == [] then [] else spans[0].text + Rendered(spans[1..])
  }

  lemma {:induction false} RenderedTexts(spans: seq<Span>, parts: seq<string>)
    requires |spans| == |parts|
    requires forall i :: 0 <= i < |spans| ==> spans[i].text == parts[i]
    ensures Rendered(spans) == Concat(parts)
  {
    if spans != [] {
      RenderedTexts(spans[1..], parts[1..]);
    }
  }

  /** Splitting yields one more segment than there are markers. */
  lemma {:induction false} SplitCount(s: string)
    ensures |Split(s)| == StarCount(s) + 1
  {
    if s != [] {
      SplitCount(s[1..]);
    }
  }

  /** Concatenating the segments gives the text with every marker removed. */
  lemma {:induction false} SplitConcat(s: string)
    ensures Concat(Split(s)) == RemoveStars(s)
  {
    if s != [] {
      var rest := Split(s[1..]);
      SplitConcat(s[1..]);
      if s[0] == '*' {
        assert Concat([""] + rest) == "" + Concat(rest);
      } else {
        var parts := [[s[0]] + rest[0]] + rest[1..];
        assert parts[1..] == rest[1..];
        assert Concat(rest) == rest[0] + Concat(rest[1..]);
      }
    }
  }

  lemma {:induction false} JoinCons(c: char, parts: seq<string>)
    requires parts != []
    ensures Join([[c] + parts[0]] + parts[1..]) == [c] + Join(parts)
  {
    var q := [[c] + parts[0]] + parts[1..];
    assert q[1..] == parts[1..];
  }

  /** Rejoining the segments with `*` restores the original text. */
  lemma {:induction false} JoinSplit(s: string)
    ensures Join(Split(s)) == s
  {
    if s != [] {
      var rest := Split(s[1..]);
      JoinSplit(s[1..]);
      if s[0] == '*' {
        assert ([""] + rest)[1..] == rest;
        assert s == "" + "*" + s[1..];
      } else {
        JoinCons(s[0], rest);
        assert s == [s[0]] + s[1..];
      }
    }
  }

  /** A `*`-free prefix is glued to the first segment of what follows it. */
  lemma {:induction false} SplitPrefix(p: string, t: string)
    requires '*' !in p
    ensures Split(p + t) == [p + Split(t)[0]] + Split(t)[1..]
  {
    if p == [] {
      assert p + t == t;
      assert p + Split(t)[0] == Split(t)[0];
      assert [Split(t)[0]] + Split(t)[1..] == Split(t);
    } else {
      var rest := Split(p[1..] + t);
      assert '*' !in p[1..] by {
        forall i | 0 <= i < |p[1..]| ensures p[1..][i] != '*' {
          assert p[1..][i] == p[i + 1];
        }
      }
      SplitPrefix(p[1..], t);
      assert (p + t)[0] == p[0];
      assert (p + t)[1..] == p[1..] + t;
      assert [p[0]] + (p[1..] + Split(t)[0]) == p + Split(t)[0];
    }
  }

  /** Splitting `*`-free segments joined by `*` gives those segments back. */
  lemma {:induction false} SplitJoin(parts: seq<string>)
    requires |parts| >= 1
    requires forall i :: 0 <= i < |parts| ==> '*' !in parts[i]
    ensures Split(Join(parts)) == parts
  {
    if |parts| == 1 {
      SplitPrefix(parts[0], "");
      assert parts[0] + "" == parts[0];
    } else {
      var t := "*" + Join(parts[1..]);
      SplitJoin(parts[1..]);
      SplitPrefix(parts[0], t);
      assert t[1..] == Join(parts[1..]);
      assert Split(t) == [""] + parts[1..];
      assert parts[0] + "*" + Join(parts[1..]) == parts[0] + t;
      assert parts[0] + "" == parts[0];
      assert [parts[0]] + parts[1..] == parts;
    }
  }

  /** An even number of markers closes every emphasis: the last span is plain. */
  lemma EmphasisClosed(text: string)
    requires StarCount(text) % 2 == 0
    ensures Highlight(text)[|Highlight(text)| - 1].Plain?
    ensures |set i | 0 <= i < |Highlight(text)| && Highlight(text)[i].Emphasised?| == StarCount(text) / 2
  {
    var spans := Highlight(text);
    OddIndices(|spans|);
    assert (set i | 0 <= i < |spans| && spans[i].Emphasised?) == (set i | 0 <= i < |spans| && i % 2 == 1);
  }

  /** Among `0 .. n-1` there are `n / 2` odd numbers. */
  lemma {:induction false} OddIndices(n: nat)
    ensures |set i | 0 <= i < n && i % 2 == 1| == n / 2
  {
    if n > 0 {
      OddIndices(n - 1);
      var prev := set i | 0 <= i < n - 1 && i % 2 == 1;
      if (n - 1) % 2 == 1 {
        assert (set i | 0 <= i < n && i % 2 == 1) == prev + {n - 1};
      } else {
        assert (set i | 0 <= i < n && i % 2 == 1) == prev;
      }
    }
  }

  /** Joining `k + 1` marker-free segments puts exactly `k` markers in the text. */
  lemma {:induction false} JoinStarCount(parts: seq<string>)
    requires |parts| >= 1
    requires forall i :: 0 <= i < |parts| ==> '*' !in parts[i]
    ensures StarCount(Join(parts)) == |parts| - 1
  {
    SplitJoin(parts);
    SplitCount(Join(parts));
  }
}
