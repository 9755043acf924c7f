/** `addFavorite`: a user's favourite monuments, kept in a per-user file,
    with an identifier appended only when it is not already in the list. */
module Favorites {

  const FavoritesPrefix := "data/favorites-"
  const FavoritesSuffix := ".json"

  /** The file that holds one user's favourites. */
  function FavoritesPath(userId: string): string
  {
    FavoritesPrefix + userId + FavoritesSuffix
  }

  /** Distinct user ids give distinct path strings. */
  lemma FavoritesPathInjective(a: string, b: string)
    requires FavoritesPath(a) == FavoritesPath(b)
    ensures a == b
  {
    var n := |FavoritesPrefix|;
    assert |a| == |b|;
    assert FavoritesPath(a)[n..n + |a|] == a;
    assert FavoritesPath(b)[n..n + |b|] == b;
  }

  /** The list after `if (!favorites.includes(id)) favorites.push(id)`:
      the old list is kept as a prefix, id is in the result, and at most id is
      added, at the end and only when it was missing. */
  function WithFavorite(favorites: seq<string>, id: string): (r: seq<string>)
    ensures id in r
    ensures |favorites| <= |r| && r[..|favorites|] == favorites
    ensures forall k :: |favorites| <= k < |r| ==> r[k] == id && id !in favorites
    ensures |r| <= |favorites| + 1
  {
    if id in favorites then favorites else favorites + [id]
  }

  /** The set of favourites grows by exactly id. */
  lemma WithFavoriteSet(favorites: seq<string>, id: string)
    ensures (set x | x in WithFavorite(favorites, id)) == (set x | x in favorites) + {id}
  {
    var r := WithFavorite(favorites, id);
    forall x | x in r
      ensures x in favorites || x == id
    {
      var k :| 0 <= k < |r| && r[k] == x;
      if k < |favorites| {
        assert r[..|favorites|][k] == x;
      }
    }
    forall x | x in favorites
      ensures x in r
    {
      var k :| 0 <= k < |favorites| && favorites[k] == x;
      assert r[..|favorites|][k] == x;
    }
  }

  /** Adding an identifier a second time changes nothing. */
  lemma WithFavoriteIdempotent(favorites: seq<string>, id: string)
    ensures WithFavorite(WithFavorite(favorites, id), id) == WithFavorite(favorites, id)
  {
  }

  /** `addFavorite(id)` called `times` times in a row. */
  function AddRepeatedly(favorites: seq<string>, id: string, times: nat): seq<string>
    decreases times
  {
    if times == 0 then favorites else WithFavorite(AddRepeatedly(favorites, id, times - 1), id)
  }

  /** An identifier that was not a favourite is in the list exactly once after
      being added, however many times it is added. */
  lemma {:induction false} AddedOnce(favorites: seq<string>, id: string, times: nat)
    requires id !in favorites && times >= 1
    ensures multiset(AddRepeatedly(favorites, id, times))[id] == 1
    decreases times
  {
    if times == 1 {
      assert multiset(favorites)[id] == 0;
      assert multiset(favorites + [id]) == multiset(favorites) + multiset{id};
    } else {
      AddedOnce(favorites, id, times - 1);
      WithFavoriteIdempotentAfterAdd(favorites, id, times - 1);
    }
  }

  /** Once id has been added, further additions leave the list as it is. */
  lemma {:induction false} WithFavoriteIdempotentAfterAdd(favorites: seq<string>, id: string, times: nat)
    requires times >= 1
    ensures AddRepeatedly(favorites, id, times + 1) == AddRepeatedly(favorites, id, times)
    decreases times
  {
    var before := AddRepeatedly(favorites, id, times - 1);
    WithFavoriteIdempotent(before, id);
  }

  /** A list without duplicates stays without duplicates. */
  lemma WithFavoriteKeepsDistinct(favorites: seq<string>, id: string)
    requires forall a, b :: 0 <= a < b < |favorites| ==> favorites[a] != favorites[b]
    ensures var r := WithFavorite(favorites, id);
      forall a, b :: 0 <= a < b < |r| ==> r[a] != r[b]
  {
  }

  /** The favourites files: the parsed list held under each path, and the paths
      written so far, in order. */
  class FavoritesStore {
    var files: map<string, seq<string>>
    var writes: seq<string>

    constructor()
      ensures files == map[] && writes == []
    {
      files := map[];
      writes := [];
    }

    /** The list `addFavorite` starts from: the file's contents if it exists,
        the empty list otherwise. */
    function Stored(userId: string): seq<string>
      reads this
    {
      var path := FavoritesPath(userId);
      if path in files then files[path] else []
    }

    /** `addFavorite(id, userId)`. If id is already a favourite nothing changes
        and nothing is written; otherwise the user's file is rewritten with id
        appended. Other users' favourites are untouched. */
    method AddFavorite(id: string, userId: string)
      modifies this
      ensures Stored(userId) == WithFavorite(old(Stored(userId)), id)
      ensures id in old(Stored(userId)) ==> files == old(files) && writes == old(writes)
      ensures id !in old(Stored(userId)) ==>
        files == old(files)[FavoritesPath(userId) := old(Stored(userId)) + [id]]
        && writes == old(writes) + [FavoritesPath(userId)]
      ensures forall other :: other != userId ==> Stored(other) == old(Stored(other))
    {
      var path := FavoritesPath(userId);
      var favorites: seq<string> := [];
      if path in files {
        favorites := files[path];
      }
      if id !in favorites {
        favorites := favorites + [id];
        files := files[path := favorites];
        writes := writes + [path];
      }
      forall other | other != userId
        ensures FavoritesPath(other) != path
      {
        if FavoritesPath(other) == path {
          FavoritesPathInjective(other, userId);
        }
      }
    }
  }
}
