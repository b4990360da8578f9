/**
 * Updating, deleting and listing skill posts (utils/SkillPostUtil.js).
 *
 * The JSON file skillposts.json is the `contents` field of a PostFile object:
 * `readPosts` reads it and `writePosts` assigns it. An HTTP response is
 * returned as a Reply value. UpdateSpec and DeleteSpec state, on values,
 * what one request does to the document; the methods are proved to do
 * exactly that, and the properties of the handlers are lemmas about the two
 * functions.
 */
module SkillPosts {
  import opened Wrappers
  import Decimal

  /** One entry of `offers` or `requests`. */
  datatype Post = Post(id: int, username: string, skill: string, category: string, description: string)

  datatype Collection = Offers | Requests

  function Other(c: Collection): Collection {
    if c == Offers then Requests else Offers
  }

  /** The document: a collection is `None` when it is absent or not an array. */
  datatype Db = Db(offers: Option<seq<Post>>, requests: Option<seq<Post>>) {

    function Get(c: Collection): Option<seq<Post>> {
      if c == Offers then offers else requests
    }

    function Set(c: Collection, posts: seq<Post>): (d: Db)
      ensures d.Get(c) == Some(posts) && d.Get(Other(c)) == Get(Other(c))
    {
      if c == Offers then this.(offers := Some(posts)) else this.(requests := Some(posts))
    }
  }

  /** The fields read from `req.body || {}`; a missing field is `None`. */
  datatype Body = Body(skill: Option<string>, category: Option<string>, description: Option<string>, username: Option<string>)

  /** JavaScript truthiness of a string field. */
  predicate Truthy(s: Option<string>) {
    s.Some? && s.value != ""
  }

  /** `skill`, `category` and `description` are all given and non-empty. */
  predicate FieldsPresent(b: Body) {
    Truthy(b.skill) && Truthy(b.category) && Truthy(b.description)
  }

  /** `p.id === id`, where `id` is the result of `parseInt` (`None` is NaN). */
  predicate IdMatches(p: Post, id: Option<int>) {
    id.Some? && p.id == id.value
  }

  /** `findIndex` on values: the first position whose id matches. */
  function FirstMatch(posts: seq<Post>, id: Option<int>): (r: Option<nat>)
    ensures r.Some? ==> r.value < |posts| && IdMatches(posts[r.value], id)
    ensures r.Some? ==> forall j :: 0 <= j < r.value ==> !IdMatches(posts[j], id)
    ensures r.None? ==> forall j :: 0 <= j < |posts| ==> !IdMatches(posts[j], id)
  {
    if posts == [] then None
    else if IdMatches(posts[0], id) then Some(0)
    else
      var rest := FirstMatch(posts[1..], id);
      if rest.Some? then Some(rest.value + 1) else None
  }

  datatype Location = Location(coll: Collection, index: nat)

  /** The first match inside one collection, when that collection is an array. */
  function LocateIn(db: Db, c: Collection, id: Option<int>): Option<Location>
  {
    if db.Get(c).None? then None
    else
      var i := FirstMatch(db.Get(c).value, id);
      if i.Some? then Some(Location(c, i.value)) else None
  }

  /** The post both handlers act on: the first match in `offers`, else in `requests`. */
  function Locate(db: Db, id: Option<int>): (r: Option<Location>)
    ensures r.Some? ==> && db.Get(r.value.coll).Some?
                        && r.value.index < |db.Get(r.value.coll).value|
                        && IdMatches(db.Get(r.value.coll).value[r.value.index], id)
  {
    var inOffers := LocateIn(db, Offers, id);
    if inOffers.Some? then inOffers else LocateIn(db, Requests, id)
  }

  /** The ownership check: a username is supplied and it is not the post's. */
  predicate Forbidden(p: Post, username: Option<string>) {
    Truthy(username) && p.username != username.value
  }

  /** The post with its three editable fields taken from the body. */
  function Edited(p: Post, b: Body): Post
    requires FieldsPresent(b)
  {
    p.(skill := b.skill.value, category := b.category.value, description := b.description.value)
  }

  /** How a request ends; each outcome has a status code and message. */
  datatype Outcome = Done | MissingFields | NotAllowed | PostNotFound

  /** `res.status(status).json({ success, message })`; 200 is the default status. */
  datatype Reply = Reply(status: int, success: bool, message: string)

  function UpdateReply(o: Outcome): (r: Reply)
    ensures r.success <==> r.status == 200
  {
    match o
    case Done => Reply(200, true, "Post updated successfully.")
    case MissingFields => Reply(400, false, "Skill, category and description are required.")
    case NotAllowed => Reply(403, false, "You are not allowed to edit this post.")
    case PostNotFound => Reply(404, false, "Post not found.")
  }

  function DeleteReply(o: Outcome): (r: Reply)
    requires o != MissingFields
    ensures r.success <==> r.status == 200
  {
    match o
    case Done => Reply(200, true, "Post deleted successfully.")
    case NotAllowed => Reply(403, false, "You are not allowed to delete this post.")
    case PostNotFound => Reply(404, false, "Post not found.")
  }

  /** What `updatePost` returns and what the document then holds. */
  function UpdateSpec(db: Db, idParam: string, body: Body): (Outcome, Db)
  {
    if !FieldsPresent(body) then (MissingFields, db)
    else
      var loc := Locate(db, Decimal.ParseInt(idParam));
      if loc.None? then (PostNotFound, db)
      else
        var posts := db.Get(loc.value.coll).value;
        var i := loc.value.index;
        if Forbidden(posts[i], body.username) then (NotAllowed, db)
        else (Done, db.Set(loc.value.coll, posts[i := Edited(posts[i], body)]))
  }

  /** What `deletePost` returns and what the document then holds. */
  function DeleteSpec(db: Db, idParam: string, body: Body): (Outcome, Db)
  {
    var loc := Locate(db, Decimal.ParseInt(idParam));
    if loc.None? then (PostNotFound, db)
    else
      var posts := db.Get(loc.value.coll).value;
      var i := loc.value.index;
      if Forbidden(posts[i], body.username) then (NotAllowed, db)
      else (Done, db.Set(loc.value.coll, posts[..i] + posts[i + 1..]))
  }

  /** `Array.prototype.findIndex` with the predicate `p => p.id === id`. */
  method FindIndex(posts: seq<Post>, id: Option<int>) returns (index: int)
    ensures -1 <= index < |posts|
    ensures index == -1 <==> forall j :: 0 <= j < |posts| ==> !IdMatches(posts[j], id)
    ensures index != -1 ==> IdMatches(posts[index], id)
    ensures index != -1 ==> forall j :: 0 <= j < index ==> !IdMatches(posts[j], id)
    ensures FirstMatch(posts, id) == if index == -1 then None else Some(index)
  {
    index := 0;
    while index < |posts|
      invariant 0 <= index <= |posts|
      invariant forall j :: 0 <= j < index ==> !IdMatches(posts[j], id)
    {
      if IdMatches(posts[index], id) {
        return;
      }
      index := index + 1;
    }
    index := -1;
  }

  /** What `viewPosts` lists for a collection: the array, or [] when it is absent. */
  function Listed(posts: Option<seq<Post>>): (r: seq<Post>)
    ensures posts.Some? ==> r == posts.value
    ensures posts.None? ==> r == []
  {
    posts.GetOr([])
  }

  /** The number of posts `viewPosts` lists. */
  function ListedCount(db: Db): nat {
    |Listed(db.offers)| + |Listed(db.requests)|
  }

  // ---------------------------------------------------------------------
  // Properties of the two handlers

  /**
   * Lookup scans `offers` before `requests`, skips a collection that is not an
   * array, and picks the first post whose id matches.
   */
  lemma LocateScansOffersFirst(db: Db, id: Option<int>, c: Collection, i: nat)
    ensures Locate(db, id) == Some(Location(c, i)) <==>
              && db.Get(c).Some? && i < |db.Get(c).value| && IdMatches(db.Get(c).value[i], id)
              && (forall j :: 0 <= j < i ==> !IdMatches(db.Get(c).value[j], id))
              && (c == Requests && db.offers.Some? ==>
                    forall j :: 0 <= j < |db.offers.value| ==> !IdMatches(db.offers.value[j], id))
  {
  }

  /** A non-numeric id (NaN) matches no post: both handlers answer 404 and write nothing. */
  lemma NonNumericIdNotFound(db: Db, idParam: string, body: Body)
    requires Decimal.ParseInt(idParam).None?
    ensures FieldsPresent(body) ==> UpdateSpec(db, idParam, body) == (PostNotFound, db)
    ensures DeleteSpec(db, idParam, body) == (PostNotFound, db)
  {
    assert LocateIn(db, Offers, None).None?;
    assert LocateIn(db, Requests, None).None?;
  }

  /** The route parameter `String(n)` (or `String(n)` followed by non-digits) selects the posts with id n. */
  lemma RouteIdSelectsId(db: Db, n: nat, tail: string)
    requires tail == [] || !Decimal.IsDigit(tail[0])
    ensures Locate(db, Decimal.ParseInt(Decimal.Render(n) + tail)) == Locate(db, Some(n))
  {
    Decimal.ParseIntOfRendered(n, tail);
  }

  /** The outcomes of `updatePost`, in the order the handler decides them. */
  lemma UpdateOutcomes(db: Db, idParam: string, body: Body)
    ensures UpdateSpec(db, idParam, body).0 == MissingFields <==> !FieldsPresent(body)
    ensures UpdateSpec(db, idParam, body).0 == PostNotFound <==>
              FieldsPresent(body) && Locate(db, Decimal.ParseInt(idParam)).None?
    ensures UpdateSpec(db, idParam, body).0 == NotAllowed <==>
              && FieldsPresent(body) && Locate(db, Decimal.ParseInt(idParam)).Some?
              && var loc := Locate(db, Decimal.ParseInt(idParam)).value;
                 Forbidden(db.Get(loc.coll).value[loc.index], body.username)
    ensures UpdateSpec(db, idParam, body).0 != Done ==> UpdateSpec(db, idParam, body).1 == db
  {
  }

  /** Missing or empty fields are rejected whatever the document holds. */
  lemma UpdateValidatesFirst(d1: Db, d2: Db, idParam: string, body: Body)
    requires !FieldsPresent(body)
    ensures UpdateSpec(d1, idParam, body).0 == UpdateSpec(d2, idParam, body).0 == MissingFields
    ensures UpdateSpec(d1, idParam, body).1 == d1
  {
  }

  /**
   * A successful update sets exactly `skill`, `category` and `description` of
   * the matched post; its id and username, every other post and the other
   * collection stay as they were.
   */
  lemma UpdateEditsOnlyMatchedPost(db: Db, idParam: string, body: Body, c: Collection, i: nat)
    requires FieldsPresent(body)
    requires Locate(db, Decimal.ParseInt(idParam)) == Some(Location(c, i))
    requires !Forbidden(db.Get(c).value[i], body.username)
    ensures var (outcome, after) := UpdateSpec(db, idParam, body);
            && outcome == Done
            && after.Get(Other(c)) == db.Get(Other(c))
            && after.Get(c).Some?
            && |after.Get(c).value| == |db.Get(c).value|
            && after.Get(c).value[i].id == db.Get(c).value[i].id
            && after.Get(c).value[i].username == db.Get(c).value[i].username
            && after.Get(c).value[i].skill == body.skill.value
            && after.Get(c).value[i].category == body.category.value
            && after.Get(c).value[i].description == body.description.value
            && forall j :: 0 <= j < |db.Get(c).value| && j != i ==> after.Get(c).value[j] == db.Get(c).value[j]
  {
  }

  /** Two collections with the same ids, position by position, have the same first match. */
  lemma {:induction false} FirstMatchDependsOnIds(s: seq<Post>, t: seq<Post>, id: Option<int>)
    requires |s| == |t|
    requires forall j :: 0 <= j < |s| ==> s[j].id == t[j].id
    ensures FirstMatch(s, id) == FirstMatch(t, id)
  {
    if s != [] {
      FirstMatchDependsOnIds(s[1..], t[1..], id);
    }
  }

  /** Sending the same update twice has the effect of sending it once. */
  lemma UpdateIdempotent(db: Db, idParam: string, body: Body)
    requires UpdateSpec(db, idParam, body).0 == Done
    ensures UpdateSpec(UpdateSpec(db, idParam, body).1, idParam, body) == (Done, UpdateSpec(db, idParam, body).1)
  {
    var id := Decimal.ParseInt(idParam);
    var loc := Locate(db, id).value;
    var c, i := loc.coll, loc.index;
    var after := UpdateSpec(db, idParam, body).1;
    var s := db.Get(c).value;
    var t := after.Get(c).value;
    assert t == s[i := Edited(s[i], body)];
    FirstMatchDependsOnIds(s, t, id);
    assert LocateIn(after, c, id) == LocateIn(db, c, id);
    assert LocateIn(after, Other(c), id) == LocateIn(db, Other(c), id);
    assert Locate(after, id) == Locate(db, id);
    assert t[i := Edited(t[i], body)] == t;
  }

  /** The outcomes of `deletePost`; it has no field validation. */
  lemma DeleteOutcomes(db: Db, idParam: string, body: Body)
    ensures DeleteSpec(db, idParam, body).0 != MissingFields
    ensures DeleteSpec(db, idParam, body).0 == PostNotFound <==> Locate(db, Decimal.ParseInt(idParam)).None?
    ensures DeleteSpec(db, idParam, body).0 == NotAllowed <==>
              && Locate(db, Decimal.ParseInt(idParam)).Some?
              && var loc := Locate(db, Decimal.ParseInt(idParam)).value;
                 Forbidden(db.Get(loc.coll).value[loc.index], body.username)
    ensures DeleteSpec(db, idParam, body).0 != Done ==> DeleteSpec(db, idParam, body).1 == db
  {
  }

  /**
   * A successful delete removes exactly the matched post: the collection is
   * one shorter, the others keep their order, and the other collection stays.
   */
  lemma DeleteRemovesOnlyMatchedPost(db: Db, idParam: string, body: Body, c: Collection, i: nat)
    requires Locate(db, Decimal.ParseInt(idParam)) == Some(Location(c, i))
    requires !Forbidden(db.Get(c).value[i], body.username)
    ensures var (outcome, after) := DeleteSpec(db, idParam, body);
            && outcome == Done
            && after.Get(Other(c)) == db.Get(Other(c))
            && after.Get(c).Some?
            && |after.Get(c).value| == |db.Get(c).value| - 1
            && (forall j :: 0 <= j < i ==> after.Get(c).value[j] == db.Get(c).value[j])
            && (forall j :: i <= j < |after.Get(c).value| ==> after.Get(c).value[j] == db.Get(c).value[j + 1])
            && multiset(after.Get(c).value) + multiset{db.Get(c).value[i]} == multiset(db.Get(c).value)
  {
    var s := db.Get(c).value;
    assert s == s[..i] + [s[i]] + s[i + 1..];
  }

  /** A successful delete lists one post fewer; a successful update lists as many. */
  lemma ListedCountAfterSuccess(db: Db, idParam: string, body: Body)
    ensures DeleteSpec(db, idParam, body).0 == Done ==>
              ListedCount(DeleteSpec(db, idParam, body).1) == ListedCount(db) - 1
    ensures ListedCount(UpdateSpec(db, idParam, body).1) == ListedCount(db)
  {
    var loc := Locate(db, Decimal.ParseInt(idParam));
    if loc.Some? && DeleteSpec(db, idParam, body).0 == Done {
      DeleteRemovesOnlyMatchedPost(db, idParam, body, loc.value.coll, loc.value.index);
    }
  }

  /** skillposts.json and the three handlers that work on it. */
  class PostFile {
    var contents: Db

    constructor (initial: Db)
      ensures contents == initial
    {
      contents := initial;
    }

    /** `readPosts`. */
    method ReadPosts() returns (db: Db)
      ensures db == contents
    {
      db := contents;
    }

    /** `writePosts`. */
    method WritePosts(db: Db)
      modifies this
      ensures contents == db
    {
      contents := db;
    }

    /** `viewPosts`: both collections, an absent one as []. It changes nothing. */
    method ViewPosts() returns (offers: seq<Post>, requests: seq<Post>)
      ensures contents.offers.Some? ==> offers == contents.offers.value
      ensures contents.offers.None? ==> offers == []
      ensures contents.requests.Some? ==> requests == contents.requests.value
      ensures contents.requests.None? ==> requests == []
    {
      var db := ReadPosts();
      offers := db.offers.GetOr([]);
      requests := db.requests.GetOr([]);
    }

    /** `updatePost` for the route parameter `idParam` and the request body. */
    method UpdatePost(idParam: string, body: Body) returns (reply: Reply)
      modifies this
      ensures reply == UpdateReply(UpdateSpec(old(contents), idParam, body).0)
      ensures contents == UpdateSpec(old(contents), idParam, body).1
    {
      if !Truthy(body.skill) || !Truthy(body.category) || !Truthy(body.description) {
        return UpdateReply(MissingFields);
      }
      var id := Decimal.ParseInt(idParam);
      var db := ReadPosts();
      var collections := [Offers, Requests];
      var found := false;
      for i := 0 to |collections|
        invariant db == contents == old(contents)
        invariant !found
        invariant forall k :: 0 <= k < i ==> LocateIn(db, collections[k], id).None?
      {
        var key := collections[i];
        if db.Get(key).None? {
          continue;
        }
        var posts := db.Get(key).value;
        var index := FindIndex(posts, id);
        if index != -1 {
          assert LocateIn(db, key, id) == Some(Location(key, index));
          assert key == Requests ==> LocateIn(db, Offers, id).None? by {
            assert key == Requests ==> i == 1 && collections[0] == Offers;
          }
          assert Locate(db, id) == Some(Location(key, index));
          if Truthy(body.username) && posts[index].username != body.username.value {
            return UpdateReply(NotAllowed);
          }
          var post := posts[index];
          post := post.(skill := body.skill.value);
          post := post.(category := body.category.value);
          post := post.(description := body.description.value);
          db := db.Set(key, posts[index := post]);
          found := true;
          break;
        }
      }
      if !found {
        assert LocateIn(db, collections[0], id).None? && LocateIn(db, collections[1], id).None?;
        assert Locate(db, id).None?;
        return UpdateReply(PostNotFound);
      }
      WritePosts(db);
      reply := UpdateReply(Done);
    }

    /** `deletePost` for the route parameter `idParam` and the request body. */
    method DeletePost(idParam: string, body: Body) returns (reply: Reply)
      modifies this
      ensures DeleteSpec(old(contents), idParam, body).0 != MissingFields
      ensures reply == DeleteReply(DeleteSpec(old(contents), idParam, body).0)
      ensures contents == DeleteSpec(old(contents), idParam, body).1
    {
      var id := Decimal.ParseInt(idParam);
      var db := ReadPosts();
      var collections := [Offers, Requests];
      var found := false;
      for i := 0 to |collections|
        invariant db == contents == old(contents)
        invariant !found
        invariant forall k :: 0 <= k < i ==> LocateIn(db, collections[k], id).None?
      {
        var key := collections[i];
        if db.Get(key).None? {
          continue;
        }
        var posts := db.Get(key).value;
        var index := FindIndex(posts, id);
        if index != -1 {
          assert LocateIn(db, key, id) == Some(Location(key, index));
          assert key == Requests ==> LocateIn(db, Offers, id).None? by {
            assert key == Requests ==> i == 1 && collections[0] == Offers;
          }
          assert Locate(db, id) == Some(Location(key, index));
          if Truthy(body.username) && posts[index].username != body.username.value {
            return DeleteReply(NotAllowed);
          }
          db := db.Set(key, posts[..index] + posts[index + 1..]);
          found := true;
          break;
        }
      }
      if !found {
        assert LocateIn(db, collections[0], id).None? && LocateIn(db, collections[1], id).None?;
        assert Locate(db, id).None?;
        return DeleteReply(PostNotFound);
      }
      WritePosts(db);
      reply := DeleteReply(Done);
    }
  }
}
