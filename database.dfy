/**
  The rating store (database/database.py): a keywords table that interns
  keyword text under AUTOINCREMENT ids, and a users table holding at most
  one rating per (user, keyword) pair, replaced on conflict.
 */
module Database {
  import opened Wrappers

  /** One row of the users table. */
  datatype Rating = Rating(userId: int, keywordId: int, rating: int)

  /** Keywords offered to a user who has not rated anything yet. */
  const DefaultKeywords: seq<string> := ["apple", "google", "covid19", "usa", "cats"]

  class Store {
    /** keywords table, by its UNIQUE keyword column */
    var idOf: map<string, int>
    /** keywords table, by its keyword_id primary key */
    var textOf: map<int, string>
    /** one more than the largest keyword_id ever handed out (AUTOINCREMENT) */
    var nextId: int
    /** users table: (user_id, keyword_id) to rating */
    var ratings: map<(int, int), int>

    /** The two views of the keywords table agree: text and id determine each
        other, and every id was handed out by the counter. */
    ghost predicate Valid()
      reads this
    {
      && nextId >= 1
      && (forall k :: k in idOf ==> idOf[k] in textOf && textOf[idOf[k]] == k)
      && (forall id :: id in textOf ==> textOf[id] in idOf && idOf[textOf[id]] == id)
      && (forall id :: id in textOf ==> 1 <= id < nextId)
    }

    /** `init_db` on a new database file: both tables empty. */
    constructor ()
      ensures Valid()
      ensures idOf == map[] && textOf == map[] && ratings == map[] && nextId == 1
    {
      idOf, textOf, nextId, ratings := map[], map[], 1, map[];
    }

    /** `get_keyword`: the text stored under `keywordId`, or `None`. */
    function GetKeyword(keywordId: int): (r: Option<string>)
      reads this
      ensures r.Some? <==> keywordId in textOf
      ensures Valid() && !(1 <= keywordId < nextId) ==> r == None
    {
      if keywordId in textOf then Some(textOf[keywordId]) else None
    }

    /** `_get_keyword_id`: the id of a known keyword, or a new id, larger
        than every id handed out before, for an unknown one. */
    method GetKeywordId(keyword: string) returns (id: int)
      requires Valid()
      modifies this
      ensures Valid()
      ensures keyword in old(idOf) ==>
        id == old(idOf[keyword]) && idOf == old(idOf) && textOf == old(textOf) && nextId == old(nextId)
      ensures keyword !in old(idOf) ==>
        && id == old(nextId)
        && (forall j :: j in old(textOf) ==> j < id)
        && idOf == old(idOf)[keyword := id]
        && textOf == old(textOf)[id := keyword]
        && nextId == id + 1
      ensures GetKeyword(id) == Some(keyword)
      ensures ratings == old(ratings)
    {
      if keyword in idOf {
        id := idOf[keyword];
      } else {
        id := nextId;
        assert id !in textOf;
        idOf := idOf[keyword := id];
        textOf := textOf[id := keyword];
        nextId := nextId + 1;
      }
    }

    /** Whether the users table holds a row for `userId`. */
    predicate HasRated(userId: int)
      reads this
    {
      exists p :: p in ratings && p.0 == userId
    }

    /** `check_first_time`: the default keywords for a user without any
        rating row, `None` for a user with one. */
    function CheckFirstTime(userId: int): (r: Option<seq<string>>)
      reads this
      ensures r.Some? <==> forall p :: p in ratings ==> p.0 != userId
      ensures r.Some? ==> r.value == DefaultKeywords && |r.value| == 5
    {
      if HasRated(userId) then None else Some(DefaultKeywords)
    }

    /** `add_rating`: intern the keyword, then insert the row, replacing the
        row for the same (user, keyword) pair if there is one. */
    method AddRating(userId: int, keyword: string, rating: int)
      requires Valid()
      modifies this
      ensures Valid()
      ensures keyword in idOf && GetKeyword(idOf[keyword]) == Some(keyword)
      ensures keyword in old(idOf) ==> idOf == old(idOf) && textOf == old(textOf) && nextId == old(nextId)
      ensures forall k :: k in old(idOf) ==> k in idOf && idOf[k] == old(idOf[k])
      ensures keyword !in old(idOf) ==>
        && idOf == old(idOf)[keyword := old(nextId)]
        && textOf == old(textOf)[old(nextId) := keyword]
        && nextId == old(nextId) + 1
      ensures ratings == old(ratings)[(userId, idOf[keyword]) := rating]
      ensures CheckFirstTime(userId) == None
      ensures forall u :: u != userId ==> CheckFirstTime(u) == old(CheckFirstTime(u))
    {
      var keywordId := GetKeywordId(keyword);
      ratings := ratings[(userId, keywordId) := rating];
      assert (userId, keywordId) in ratings;
      forall u | u != userId
        ensures HasRated(u) == old(HasRated(u))
      {
        if HasRated(u) {
          var p :| p in ratings && p.0 == u;
          assert p in old(ratings);
        }
        if old(HasRated(u)) {
          var p :| p in old(ratings) && p.0 == u;
          assert p in ratings;
        }
      }
    }

    /** `get_ratings`: every row of the users table, in no promised order. */
    function GetRatings(): (rows: set<Rating>)
      reads this
      ensures forall row :: row in rows <==>
        (row.userId, row.keywordId) in ratings && ratings[(row.userId, row.keywordId)] == row.rating
    {
      set p | p in ratings :: Rating(p.0, p.1, ratings[p])
    }

    /** Distinct keyword texts never share an id. */
    lemma DistinctKeywordsDistinctIds(a: string, b: string)
      requires Valid() && a in idOf && b in idOf && a != b
      ensures idOf[a] != idOf[b]
    {
    }

    /** The users table holds at most one row per (user, keyword) pair. */
    lemma RatingRowsUnique(x: Rating, y: Rating)
      requires x in GetRatings() && y in GetRatings()
      requires x.userId == y.userId && x.keywordId == y.keywordId
      ensures x == y
    {
    }
  }
}
