/**
  The in-memory rating table the recommender is trained from, and the
  ranking of one user's predicted keywords (database/dataset.py).
 */
module Dataset {
  import opened Wrappers
  import opened PyBuiltins
  import opened Database

  /** Number of keywords `get_predictions_for_user` returns by default. */
  const DefaultPredictionsAmount: int := 5

  // ----------------------------------------------------------- the columns

  function UserIds(rows: seq<Rating>): seq<int> {
    seq(|rows|, i requires 0 <= i < |rows| => rows[i].userId)
  }

  function KeywordIds(rows: seq<Rating>): seq<int> {
    seq(|rows|, i requires 0 <= i < |rows| => rows[i].keywordId)
  }

  function RatingValues(rows: seq<Rating>): seq<int> {
    seq(|rows|, i requires 0 <= i < |rows| => rows[i].rating)
  }

  /** The frame's `user_id`, `keyword_id` and `rating` columns, in that
      order, read back as rows: what the recommender library is loaded with. */
  function Rows(userIds: seq<int>, keywordIds: seq<int>, ratingValues: seq<int>): seq<Rating>
    requires |userIds| == |keywordIds| == |ratingValues|
  {
    seq(|userIds|, i requires 0 <= i < |userIds| => Rating(userIds[i], keywordIds[i], ratingValues[i]))
  }

  /** Splitting rows into columns and projecting them back gives the rows. */
  lemma RowsOfColumns(rows: seq<Rating>)
    ensures Rows(UserIds(rows), KeywordIds(rows), RatingValues(rows)) == rows
  {
  }

  /** Projecting columns into rows and splitting them again gives the columns. */
  lemma ColumnsOfRows(userIds: seq<int>, keywordIds: seq<int>, ratingValues: seq<int>)
    requires |userIds| == |keywordIds| == |ratingValues|
    ensures var rows := Rows(userIds, keywordIds, ratingValues);
      UserIds(rows) == userIds && KeywordIds(rows) == keywordIds && RatingValues(rows) == ratingValues
  {
  }

  /** The module-level `_DATAFRAME` (three columns) and `_DATASET` (the rows
      handed to the recommender, `None` until first built). */
  class RatingTable {
    var userIdColumn: seq<int>
    var keywordIdColumn: seq<int>
    var ratingColumn: seq<int>
    var dataset: Option<seq<Rating>>

    /** The columns line up, and the dataset is their projection. */
    ghost predicate Valid()
      reads this
    {
      && |userIdColumn| == |keywordIdColumn| == |ratingColumn|
      && (dataset.Some? ==> dataset.value == Rows(userIdColumn, keywordIdColumn, ratingColumn))
      && (dataset.None? ==> userIdColumn == [] && keywordIdColumn == [] && ratingColumn == [])
    }

    /** The state at import time: nothing built. */
    constructor ()
      ensures Valid() && dataset == None
    {
      userIdColumn, keywordIdColumn, ratingColumn := [], [], [];
      dataset := None;
    }

    /** `_create_dataset`: replace the frame by the given columns and the
        dataset by their projection. */
    method CreateDataset(userIds: seq<int>, keywordIds: seq<int>, ratingValues: seq<int>)
      requires |userIds| == |keywordIds| == |ratingValues|
      modifies this
      ensures Valid()
      ensures userIdColumn == userIds && keywordIdColumn == keywordIds && ratingColumn == ratingValues
      ensures dataset == Some(Rows(userIds, keywordIds, ratingValues))
    {
      userIdColumn, keywordIdColumn, ratingColumn := userIds, keywordIds, ratingValues;
      dataset := Some(Rows(userIds, keywordIds, ratingValues));
    }

    /** `init_dataset`, given the rows `get_ratings` returned: builds the
        table column by column, once; later calls change nothing. */
    method InitDataset(ratings: seq<Rating>)
      requires Valid()
      requires dataset.Some? || |ratings| > 0
      modifies this
      ensures Valid()
      ensures old(dataset).Some? ==> unchanged(this)
      ensures old(dataset).None? ==>
        && userIdColumn == UserIds(ratings)
        && keywordIdColumn == KeywordIds(ratings)
        && ratingColumn == RatingValues(ratings)
        && dataset == Some(ratings)
    {
      if dataset.None? {
        var userIds, keywordIds, ratingValues := [], [], [];
        for i := 0 to |ratings|
          invariant userIds == UserIds(ratings[..i])
          invariant keywordIds == KeywordIds(ratings[..i])
          invariant ratingValues == RatingValues(ratings[..i])
        {
          userIds := userIds + [ratings[i].userId];
          keywordIds := keywordIds + [ratings[i].keywordId];
          ratingValues := ratingValues + [ratings[i].rating];
        }
        assert ratings[..|ratings|] == ratings;
        CreateDataset(userIds, keywordIds, ratingValues);
        RowsOfColumns(ratings);
      }
    }

    /** `add_row`, with the append it is meant to do: one row more at the end
        of every column, and the dataset rebuilt from them. */
    method AddRow(userId: int, keywordId: int, rating: int)
      requires Valid() && dataset.Some?
      modifies this
      ensures Valid()
      ensures userIdColumn == old(userIdColumn) + [userId]
      ensures keywordIdColumn == old(keywordIdColumn) + [keywordId]
      ensures ratingColumn == old(ratingColumn) + [rating]
      ensures dataset == Some(old(dataset.value) + [Rating(userId, keywordId, rating)])
    {
      ghost var before := dataset.value;
      CreateDataset(userIdColumn + [userId], keywordIdColumn + [keywordId], ratingColumn + [rating]);
      assert dataset.value == before + [Rating(userId, keywordId, rating)];
    }
  }

  // ------------------------------------------------------------- ranking

  /** One prediction of the trained recommender: user, keyword id and the
      estimated rating. */
  datatype Prediction = Prediction(uid: int, iid: int, est: real)

  /** The `(keyword id, estimate)` pairs of `userId`'s predictions, in
      prediction order. */
  function ForUser(preds: seq<Prediction>, userId: int): seq<(int, real)> {
    if preds == [] then []
    else
      var last := preds[|preds| - 1];
      ForUser(preds[..|preds| - 1], userId) + (if last.uid == userId then [(last.iid, last.est)] else [])
  }

  /** Positions of `userId`'s predictions. */
  ghost function UserIndices(preds: seq<Prediction>, userId: int): set<int> {
    set i | 0 <= i < |preds| && preds[i].uid == userId
  }

  /** The filter keeps a pair exactly when some prediction for `userId`
      carries it. */
  lemma {:induction false} ForUserMembership(preds: seq<Prediction>, userId: int)
    ensures forall e :: e in ForUser(preds, userId) <==> Prediction(userId, e.0, e.1) in preds
  {
    if preds != [] {
      var init := preds[..|preds| - 1];
      ForUserMembership(init, userId);
      assert preds == init + [preds[|preds| - 1]];
    }
  }

  /** A single prediction contributes its pair exactly when it is for
      `userId`. */
  lemma ForUserOne(p: Prediction, userId: int)
    ensures ForUser([p], userId) == if p.uid == userId then [(p.iid, p.est)] else []
  {
  }

  /** The filter acts piecewise on a concatenation; with `ForUserOne` this
      fixes its result, so the user's pairs keep the predictions' order. */
  lemma {:induction false} ForUserAppend(a: seq<Prediction>, b: seq<Prediction>, userId: int)
    ensures ForUser(a + b, userId) == ForUser(a, userId) + ForUser(b, userId)
    decreases |b|
  {
    if b == [] {
      assert a + b == a;
    } else {
      var n := |b| - 1;
      ForUserAppend(a, b[..n], userId);
      assert (a + b)[..|a + b| - 1] == a + b[..n];
      assert (a + b)[|a + b| - 1] == b[n];
    }
  }

  /** The filter keeps one pair per prediction for `userId`. */
  lemma {:induction false} ForUserCount(preds: seq<Prediction>, userId: int)
    ensures |ForUser(preds, userId)| == |UserIndices(preds, userId)|
  {
    if preds != [] {
      var n := |preds| - 1;
      var init := preds[..n];
      ForUserCount(init, userId);
      var s := UserIndices(init, userId);
      assert n !in s;
      if preds[n].uid == userId {
        assert UserIndices(preds, userId) == s + {n};
      } else {
        assert UserIndices(preds, userId) == s;
      }
    }
  }

  predicate SortedDesc(s: seq<(int, real)>) {
    forall i, j :: 0 <= i < j < |s| ==> s[i].1 >= s[j].1
  }

  /** Inserts `x` after every entry whose estimate is at least its own. */
  function Insert(x: (int, real), s: seq<(int, real)>): (r: seq<(int, real)>)
    ensures |r| == |s| + 1
  {
    if s == [] then [x]
    else if s[0].1 >= x.1 then [s[0]] + Insert(x, s[1..])
    else [x] + s
  }

  /** `sorted(s, key=estimate, reverse=True)`: inserting entries one by one in
      their original order. */
  function SortByEstimate(s: seq<(int, real)>): (r: seq<(int, real)>)
    ensures |r| == |s|
  {
    if s == [] then []
    else Insert(s[|s| - 1], SortByEstimate(s[..|s| - 1]))
  }

  /** The entries of `s` whose estimate is `e`, in order. */
  function WithEstimate(s: seq<(int, real)>, e: real): seq<(int, real)> {
    if s == [] then []
    else (if s[0].1 == e then [s[0]] else []) + WithEstimate(s[1..], e)
  }

  lemma {:induction false} WithEstimateAppend(a: seq<(int, real)>, b: seq<(int, real)>, e: real)
    ensures WithEstimate(a + b, e) == WithEstimate(a, e) + WithEstimate(b, e)
  {
    if a != [] {
      WithEstimateAppend(a[1..], b, e);
      assert (a + b)[1..] == a[1..] + b;
    } else {
      assert a + b == b;
    }
  }

  lemma {:induction false} WithEstimateBelow(s: seq<(int, real)>, e: real)
    requires forall k :: 0 <= k < |s| ==> s[k].1 < e
    ensures WithEstimate(s, e) == []
  {
    if s != [] {
      WithEstimateBelow(s[1..], e);
    }
  }

  lemma {:induction false} InsertMultiset(x: (int, real), s: seq<(int, real)>)
    ensures multiset(Insert(x, s)) == multiset(s) + multiset{x}
  {
    if s != [] && s[0].1 >= x.1 {
      InsertMultiset(x, s[1..]);
      assert Insert(x, s) == [s[0]] + Insert(x, s[1..]);
      assert s == [s[0]] + s[1..];
    } else {
      assert Insert(x, s) == [x] + s;
    }
  }

  lemma ConsSorted(h: (int, real), t: seq<(int, real)>)
    requires SortedDesc(t)
    requires forall k :: 0 <= k < |t| ==> t[k].1 <= h.1
    ensures SortedDesc([h] + t)
  {
    var r := [h] + t;
    forall i, j | 0 <= i < j < |r|
      ensures r[i].1 >= r[j].1
    {
      assert r[j] == t[j - 1];
      if i > 0 {
        assert r[i] == t[i - 1];
      }
    }
  }

  lemma {:induction false} InsertSorted(x: (int, real), s: seq<(int, real)>)
    requires SortedDesc(s)
    ensures SortedDesc(Insert(x, s))
  {
    if s == [] {
      assert Insert(x, s) == [x];
    } else if s[0].1 >= x.1 {
      var tail := s[1..];
      assert SortedDesc(tail) by {
        forall i, j | 0 <= i < j < |tail|
          ensures tail[i].1 >= tail[j].1
        {
          assert tail[i] == s[i + 1] && tail[j] == s[j + 1];
        }
      }
      InsertSorted(x, tail);
      InsertMultiset(x, tail);
      var t := Insert(x, tail);
      // every entry of t is x or an entry of s[1..], so none exceeds s[0]
      forall k | 0 <= k < |t|
        ensures t[k].1 <= s[0].1
      {
        assert t[k] in multiset(t);
        if t[k] != x {
          assert t[k] in multiset(tail);
          var m :| 0 <= m < |tail| && tail[m] == t[k];
          assert tail[m] == s[m + 1];
        }
      }
      ConsSorted(s[0], t);
      assert Insert(x, s) == [s[0]] + t;
    } else {
      ConsSorted(x, s);
      assert Insert(x, s) == [x] + s;
    }
  }

  lemma {:induction false} InsertWithEstimate(x: (int, real), s: seq<(int, real)>, e: real)
    requires SortedDesc(s)
    ensures WithEstimate(Insert(x, s), e) == WithEstimate(s, e) + (if x.1 == e then [x] else [])
  {
    if s != [] {
      if s[0].1 >= x.1 {
        InsertWithEstimate(x, s[1..], e);
        var t := Insert(x, s[1..]);
        assert Insert(x, s) == [s[0]] + t;
        assert ([s[0]] + t)[0] == s[0] && ([s[0]] + t)[1..] == t;
        assert WithEstimate(s, e) == (if s[0].1 == e then [s[0]] else []) + WithEstimate(s[1..], e);
      } else {
        assert Insert(x, s) == [x] + s;
        assert ([x] + s)[0] == x && ([x] + s)[1..] == s;
        if x.1 == e {
          WithEstimateBelow(s, e);
        }
      }
    }
  }

  /** The ranking is ordered by non-increasing estimate, is a permutation of
      its input, and keeps entries with equal estimates in their original
      order (a stable sort). */
  lemma {:induction false} SortByEstimateSpec(s: seq<(int, real)>)
    ensures SortedDesc(SortByEstimate(s))
    ensures multiset(SortByEstimate(s)) == multiset(s)
    ensures forall e :: WithEstimate(SortByEstimate(s), e) == WithEstimate(s, e)
  {
    if s != [] {
      var init, x := s[..|s| - 1], s[|s| - 1];
      SortByEstimateSpec(init);
      InsertSorted(x, SortByEstimate(init));
      InsertMultiset(x, SortByEstimate(init));
      assert s == init + [x];
      forall e
        ensures WithEstimate(SortByEstimate(s), e) == WithEstimate(s, e)
      {
        InsertWithEstimate(x, SortByEstimate(init), e);
        WithEstimateAppend(init, [x], e);
      }
    }
  }

  /** The keyword text of every ranked keyword id (`None` when unknown). */
  function KeywordsOf(db: Store, ranked: seq<(int, real)>): seq<Option<string>>
    reads db
  {
    seq(|ranked|, i requires 0 <= i < |ranked| reads db => db.GetKeyword(ranked[i].0))
  }

  /** `get_predictions_for_user` on a given list of predictions: the user's
      keywords by descending estimate, resolved to text, at most `amount`. */
  function PredictionsForUser(db: Store, preds: seq<Prediction>, userId: int, amount: int): seq<Option<string>>
    reads db
  {
    Take(KeywordsOf(db, SortByEstimate(ForUser(preds, userId))), amount)
  }

  /** The user's predictions ranked: one entry per prediction for the user,
      each carried by such a prediction, ordered by non-increasing estimate,
      with ties in prediction order. */
  lemma RankingSpec(preds: seq<Prediction>, userId: int)
    ensures var ranked := SortByEstimate(ForUser(preds, userId));
      && |ranked| == |UserIndices(preds, userId)|
      && SortedDesc(ranked)
      && (forall e :: WithEstimate(ranked, e) == WithEstimate(ForUser(preds, userId), e))
      && (forall i :: 0 <= i < |ranked| ==> Prediction(userId, ranked[i].0, ranked[i].1) in preds)
  {
    var f := ForUser(preds, userId);
    ForUserCount(preds, userId);
    ForUserMembership(preds, userId);
    SortByEstimateSpec(f);
    var ranked := SortByEstimate(f);
    forall i | 0 <= i < |ranked|
      ensures ranked[i] in f
    {
      assert ranked[i] in multiset(ranked);
    }
  }

  /** What `get_predictions_for_user` promises: as many keywords as asked for
      or as the user has predictions, whichever is fewer (a negative amount
      drops that many from the end, as slicing does), each the text of the
      keyword id at the same rank. */
  lemma PredictionsForUserSpec(db: Store, preds: seq<Prediction>, userId: int, amount: int)
    ensures var r := PredictionsForUser(db, preds, userId, amount);
      var ranked := SortByEstimate(ForUser(preds, userId));
      && |r| == PrefixLength(|UserIndices(preds, userId)|, amount)
      && (forall i :: 0 <= i < |r| ==> r[i] == db.GetKeyword(ranked[i].0))
  {
    RankingSpec(preds, userId);
  }

  /** The default call returns five keywords, or all of the user's when the
      user has fewer than five predictions. */
  lemma PredictionsForUserDefault(db: Store, preds: seq<Prediction>, userId: int)
    ensures var n := |UserIndices(preds, userId)|;
      |PredictionsForUser(db, preds, userId, DefaultPredictionsAmount)| == if n < 5 then n else 5
  {
    PredictionsForUserSpec(db, preds, userId, DefaultPredictionsAmount);
  }

  /** A user without predictions gets no keywords. */
  lemma NoPredictionsNoKeywords(db: Store, preds: seq<Prediction>, userId: int, amount: int)
    requires forall p :: p in preds ==> p.uid != userId
    ensures PredictionsForUser(db, preds, userId, amount) == []
  {
    ForUserCount(preds, userId);
    assert UserIndices(preds, userId) == {};
  }
}
