/**
  The credibility score of an article (fakenews/__init__.py): the body is
  cut at every period into stripped sentences, the title is added as one
  more unit, every unit is scored by the classifier, and the score is the
  mean. The classifier is a parameter, `score`.
 */
module FakeNews {
  import opened PyBuiltins

  /** `split_article_text`: the stripped pieces of the body between periods,
      then the title as it is. */
  function SplitArticleText(text: string, title: string): (units: seq<string>)
    ensures |units| == Count(text, '.') + 2
    ensures units[|units| - 1] == title
  {
    StripEach(Split(text, '.')) + [title]
  }

  /** Each piece stripped, in order. */
  function StripEach(pieces: seq<string>): (r: seq<string>)
    ensures |r| == |pieces|
  {
    seq(|pieces|, i requires 0 <= i < |pieces| => Strip(pieces[i]))
  }

  /** Every unit cut from the body is free of periods and of whitespace at
      either end, and it is the stripped piece between two periods. */
  lemma SplitArticleTextBodyUnits(text: string, title: string)
    ensures var units := SplitArticleText(text, title);
      forall i :: 0 <= i < |units| - 1 ==>
        '.' !in units[i] && Trimmed(units[i]) && units[i] == Strip(Split(text, '.')[i])
  {
    var units := SplitArticleText(text, title);
    var pieces := Split(text, '.');
    forall i | 0 <= i < |units| - 1
      ensures '.' !in units[i] && Trimmed(units[i]) && units[i] == Strip(pieces[i])
    {
      var p := pieces[i];
      assert units[i] == Strip(p);
      assert '.' !in p;
      StripKeeps(p, '.');
      var _, _ := StripSpec(p);
    }
  }

  /** Unit scores, one classifier call per unit, in unit order. */
  function Scores(units: seq<string>, score: string -> real): (r: seq<real>)
    ensures |r| == |units|
  {
    seq(|units|, i requires 0 <= i < |units| => score(units[i]))
  }

  function Sum(xs: seq<real>): real {
    if xs == [] then 0.0 else xs[0] + Sum(xs[1..])
  }

  /** `statistics.mean`, which raises on an empty list. */
  function Mean(xs: seq<real>): real
    requires |xs| > 0
  {
    Sum(xs) / |xs| as real
  }

  /** `batch_detect_fake_news`: the mean classifier score over all units. The
      mean is always defined, since the title is always a unit. */
  function BatchDetectFakeNews(text: string, title: string, score: string -> real): real {
    Mean(Scores(SplitArticleText(text, title), score))
  }

  predicate AllProbabilities(xs: seq<real>) {
    forall i :: 0 <= i < |xs| ==> 0.0 <= xs[i] <= 1.0
  }

  lemma {:induction false} SumBounds(xs: seq<real>)
    requires AllProbabilities(xs)
    ensures 0.0 <= Sum(xs) <= |xs| as real
  {
    if xs != [] {
      SumBounds(xs[1..]);
    }
  }

  /** The mean of probabilities is a probability. */
  lemma MeanBounds(xs: seq<real>)
    requires |xs| > 0 && AllProbabilities(xs)
    ensures 0.0 <= Mean(xs) <= 1.0
  {
    SumBounds(xs);
  }

  /** When the classifier scores every unit within [0, 1], the article score
      is within [0, 1]. */
  lemma BatchDetectFakeNewsBounds(text: string, title: string, score: string -> real)
    requires forall u :: u in SplitArticleText(text, title) ==> 0.0 <= score(u) <= 1.0
    ensures 0.0 <= BatchDetectFakeNews(text, title, score) <= 1.0
  {
    var units := SplitArticleText(text, title);
    var xs := Scores(units, score);
    assert forall i :: 0 <= i < |xs| ==> units[i] in units;
    MeanBounds(xs);
  }

  lemma {:induction false} SumAppend(a: seq<real>, b: seq<real>)
    ensures Sum(a + b) == Sum(a) + Sum(b)
  {
    if a == [] {
      assert a + b == b;
    } else {
      SumAppend(a[1..], b);
      assert (a + b)[1..] == a[1..] + b;
    }
  }

  lemma SumCons(x: real, t: seq<real>)
    ensures Sum([x] + t) == x + Sum(t)
  {
    assert ([x] + t)[1..] == t;
  }

  /** Taking one summand out of the middle. */
  lemma {:induction false} SumRemove(b: seq<real>, k: nat)
    requires k < |b|
    ensures Sum(b) == b[k] + Sum(b[..k] + b[k + 1..])
  {
    if k == 0 {
      assert b[..0] + b[1..] == b[1..];
    } else {
      var c := b[1..];
      SumRemove(c, k - 1);
      assert c[k - 1] == b[k];
      var rest := b[..k] + b[k + 1..];
      assert rest == [b[0]] + (c[..k - 1] + c[k..]);
      SumCons(b[0], c[..k - 1] + c[k..]);
    }
  }

  lemma MultisetRemove(b: seq<real>, k: nat)
    requires k < |b|
    ensures multiset(b[..k] + b[k + 1..]) == multiset(b) - multiset{b[k]}
  {
    assert b == b[..k] + [b[k]] + b[k + 1..];
  }

  /** Sums, and so means, do not depend on the order of the summands. */
  lemma {:induction false} SumPermutation(a: seq<real>, b: seq<real>)
    requires multiset(a) == multiset(b)
    ensures Sum(a) == Sum(b)
    decreases |a|
  {
    if a != [] {
      assert a[0] in multiset(b);
      var k :| 0 <= k < |b| && b[k] == a[0];
      var rest := b[..k] + b[k + 1..];
      MultisetRemove(b, k);
      assert a == [a[0]] + a[1..];
      assert multiset(a[1..]) == multiset(a) - multiset{a[0]};
      SumPermutation(a[1..], rest);
      SumRemove(b, k);
    } else {
      assert |b| == |multiset(b)| == 0;
    }
  }

  /** The results are read from an unordered set of finished tasks; whatever
      order they arrive in, the score is the same. */
  lemma ArrivalOrderIrrelevant(text: string, title: string, score: string -> real, arrived: seq<real>)
    requires multiset(arrived) == multiset(Scores(SplitArticleText(text, title), score))
    ensures |arrived| > 0
    ensures Mean(arrived) == BatchDetectFakeNews(text, title, score)
  {
    var xs := Scores(SplitArticleText(text, title), score);
    assert |arrived| == |multiset(arrived)| == |xs|;
    SumPermutation(arrived, xs);
  }

  /** Every unit, empty ones included, is scored exactly once: the mean is
      taken over one more score than the body has periods, plus the title. */
  lemma OneScorePerUnit(text: string, title: string, score: string -> real)
    ensures var xs := Scores(SplitArticleText(text, title), score);
      |xs| == Count(text, '.') + 2
      && xs[|xs| - 1] == score(title)
      && BatchDetectFakeNews(text, title, score) == Sum(xs) / (Count(text, '.') + 2) as real
  {
  }

  /** A body ending on a period yields an empty last sentence, and the
      classifier is called on it like on any other unit. */
  lemma TrailingPeriodEmptyUnit(text: string, title: string)
    requires text != [] && text[|text| - 1] == '.'
    ensures var units := SplitArticleText(text, title);
      |units| >= 3 && units[|units| - 2] == ""
  {
    SplitTrailingSeparator(text, '.');
    CountLast(text, '.');
    StripEmpty();
  }

  lemma SplitTwoSentences(x: string, y: string)
    requires '.' !in x && '.' !in y
    ensures Split(x + ['.'] + y + ['.'], '.') == [x, y, ""]
  {
    SplitFirst(y, '.', "");
    assert y + ['.'] + "" == y + ['.'];
    SplitFirst(x, '.', y + ['.']);
    assert x + ['.'] + (y + ['.']) == x + ['.'] + y + ['.'];
  }

  /** A body of two period-terminated sentences gives four units: the two
      stripped sentences, the empty piece after the final period, and the
      title. */
  lemma TwoSentenceUnits(x: string, y: string, title: string)
    requires '.' !in x && '.' !in y
    ensures SplitArticleText(x + ['.'] + y + ['.'], title) == [Strip(x), Strip(y), "", title]
  {
    SplitTwoSentences(x, y);
    StripEmpty();
    StripThree(x, y, "");
  }

  lemma StripThree(p: string, q: string, r: string)
    ensures StripEach([p, q, r]) == [Strip(p), Strip(q), Strip(r)]
  {
  }

  /** The score of such a body is the mean of the four units' scores. */
  lemma TwoSentences(x: string, y: string, title: string, score: string -> real)
    requires '.' !in x && '.' !in y
    ensures BatchDetectFakeNews(x + ['.'] + y + ['.'], title, score)
         == (score(Strip(x)) + score(Strip(y)) + score("") + score(title)) / 4.0
  {
    TwoSentenceUnits(x, y, title);
    MeanOfFourUnits(Strip(x), Strip(y), "", title, score);
  }

  lemma MeanOfFourUnits(a: string, b: string, c: string, d: string, score: string -> real)
    ensures Mean(Scores([a, b, c, d], score)) == (score(a) + score(b) + score(c) + score(d)) / 4.0
  {
    var xs := Scores([a, b, c, d], score);
    assert xs == [score(a), score(b), score(c), score(d)];
    SumOfFour(score(a), score(b), score(c), score(d));
  }

  lemma SumOfFour(a: real, b: real, c: real, d: real)
    ensures Sum([a, b, c, d]) == a + b + c + d
  {
    SumCons(d, []);
    SumCons(c, [d]);
    SumCons(b, [c, d]);
    SumCons(a, [b, c, d]);
    assert [a] + [b, c, d] == [a, b, c, d];
  }

  /** Swapping the two sentences of such a body does not change the score. */
  lemma SwapSentences(x: string, y: string, title: string, score: string -> real)
    requires '.' !in x && '.' !in y
    ensures BatchDetectFakeNews(x + ['.'] + y + ['.'], title, score)
         == BatchDetectFakeNews(y + ['.'] + x + ['.'], title, score)
  {
    TwoSentences(x, y, title, score);
    TwoSentences(y, x, title, score);
  }
}
