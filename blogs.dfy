/** The blog resource handlers (controllers/blogs.js) over an in-memory model
    of the document store they call. */
module Blogs {
  import opened Values
  import opened Models
  import ListHelper

  /** A POST body once decoded: each field may be absent. */
  datatype BlogPayload = BlogPayload(
    title: Option<string>, author: Option<string>, url: Option<string>, likes: Option<int>)

  /** A record that passed validation and waits for the store to give it an id. */
  datatype Draft = Draft(title: string, author: string, url: string, likes: int)

  /** `if (!blog.likes) blog.likes = 0`: the `likes` a record is saved with. */
  function DefaultLikes(likes: Option<int>): (r: int)
    ensures (r == 0) == FalsyNumber(likes)
    ensures r != 0 ==> likes == Some(r)
  {
    if FalsyNumber(likes) then 0 else likes.value
  }

  /** The rejection rule: some required text field is falsy. */
  predicate MissingRequired(p: BlogPayload)
    ensures !MissingRequired(p) <==>
      && p.title.Some? && |p.title.value| >= 1
      && p.author.Some? && |p.author.value| >= 1
      && p.url.Some? && |p.url.value| >= 1
  {
    FalsyString(p.title) || FalsyString(p.author) || FalsyString(p.url)
  }

  /** What the POST handler would save for `p`, or None when it answers 400. */
  function Accept(p: BlogPayload): (r: Option<Draft>)
    ensures r.None? <==> MissingRequired(p)
    ensures r.Some? ==> r.value.title != "" && r.value.author != "" && r.value.url != ""
    ensures r.Some? ==> Some(r.value.title) == p.title && Some(r.value.author) == p.author
                        && Some(r.value.url) == p.url
    ensures r.Some? ==> r.value.likes == DefaultLikes(p.likes)
  {
    if MissingRequired(p) then None
    else Some(Draft(p.title.value, p.author.value, p.url.value, DefaultLikes(p.likes)))
  }

  /** Whether a request is accepted depends on title, author and url only. */
  lemma AcceptIgnoresLikes(p: BlogPayload, likes: Option<int>)
    ensures Accept(p).Some? <==> Accept(p.(likes := likes)).Some?
    ensures Accept(p).Some? ==> Accept(p.(likes := likes)) == Some(Accept(p).value.(likes := DefaultLikes(likes)))
  {
  }

  /** An absent or zero `likes` is saved as 0; any other value is kept. */
  lemma AcceptedLikes(p: BlogPayload)
    requires !MissingRequired(p)
    ensures FalsyNumber(p.likes) ==> Accept(p).value.likes == 0
    ensures p.likes.Some? ==> Accept(p).value.likes == p.likes.value
  {
  }

  /** Every entry's id differs from every other's. */
  ghost predicate UniqueIds(blogs: seq<Blog>)
  {
    forall i, j :: 0 <= i < j < |blogs| ==> blogs[i].id != blogs[j].id
  }

  /** Some entry carries `id`. */
  ghost predicate HasId(blogs: seq<Blog>, id: Id)
  {
    exists i :: 0 <= i < |blogs| && blogs[i].id == id
  }

  /** The entries left after removing those with `id`, in their order. */
  function Without(blogs: seq<Blog>, id: Id): (r: seq<Blog>)
    ensures !HasId(r, id)
  {
    if blogs == [] then []
    else if blogs[0].id == id then Without(blogs[1..], id)
    else [blogs[0]] + Without(blogs[1..], id)
  }

  /** Removal keeps every entry with another id, adds nothing, and never
      lengthens the list, whether or not ids are unique. */
  lemma {:induction false} WithoutKeepsOthers(blogs: seq<Blog>, id: Id)
    ensures forall x :: x in Without(blogs, id) <==> x in blogs && x.id != id
    ensures |Without(blogs, id)| <= |blogs|
  {
    if blogs != [] {
      WithoutKeepsOthers(blogs[1..], id);
      assert blogs == [blogs[0]] + blogs[1..];
    }
  }

  /** Removing an id that no entry carries changes nothing. */
  lemma {:induction false} WithoutAbsent(blogs: seq<Blog>, id: Id)
    requires !HasId(blogs, id)
    ensures Without(blogs, id) == blogs
  {
    if blogs != [] {
      assert blogs[0].id != id;
      assert !HasId(blogs[1..], id) by {
        forall i | 0 <= i < |blogs[1..]| ensures blogs[1..][i].id != id {
          assert blogs[1..][i] == blogs[i + 1];
        }
      }
      WithoutAbsent(blogs[1..], id);
      assert blogs == [blogs[0]] + blogs[1..];
    }
  }

  /** With unique ids, removing the id of entry `k` removes exactly that entry. */
  lemma {:induction false} WithoutPresent(blogs: seq<Blog>, k: nat)
    requires UniqueIds(blogs) && k < |blogs|
    ensures Without(blogs, blogs[k].id) == blogs[..k] + blogs[k + 1..]
    ensures |Without(blogs, blogs[k].id)| == |blogs| - 1
  {
    var id := blogs[k].id;
    if k == 0 {
      assert !HasId(blogs[1..], id) by {
        forall i | 0 <= i < |blogs[1..]| ensures blogs[1..][i].id != id {
          assert blogs[1..][i] == blogs[i + 1];
        }
      }
      WithoutAbsent(blogs[1..], id);
    } else {
      assert UniqueIds(blogs[1..]) by {
        forall i, j | 0 <= i < j < |blogs[1..]| ensures blogs[1..][i].id != blogs[1..][j].id {
          assert blogs[1..][i] == blogs[i + 1] && blogs[1..][j] == blogs[j + 1];
        }
      }
      assert blogs[1..][k - 1] == blogs[k];
      WithoutPresent(blogs[1..], k - 1);
      assert blogs[0].id != id;
      assert blogs[1..][..k - 1] == blogs[1..k];
      assert blogs[1..][k..] == blogs[k + 1..];
      assert blogs[..k] == [blogs[0]] + blogs[1..k];
    }
  }

  /** Removing twice is removing once. */
  lemma WithoutIdempotent(blogs: seq<Blog>, id: Id)
    ensures Without(Without(blogs, id), id) == Without(blogs, id)
  {
    WithoutAbsent(Without(blogs, id), id);
  }

  /** Removing an id keeps the remaining ids unique. */
  lemma WithoutKeepsUnique(blogs: seq<Blog>, id: Id)
    requires UniqueIds(blogs)
    ensures UniqueIds(Without(blogs, id))
  {
    if HasId(blogs, id) {
      var k :| 0 <= k < |blogs| && blogs[k].id == id;
      WithoutPresent(blogs, k);
      var r := blogs[..k] + blogs[k + 1..];
      forall i, j | 0 <= i < j < |r| ensures r[i].id != r[j].id {
        var i' := if i < k then i else i + 1;
        var j' := if j < k then j else j + 1;
        assert r[i] == blogs[i'] && r[j] == blogs[j'];
      }
    } else {
      WithoutAbsent(blogs, id);
    }
  }

  /** The store collaborator: the collection of blog entries, in insertion
      order, and the source of fresh ids. */
  class BlogStore {
    var blogs: seq<Blog>
    var nextId: Id

    /** Ids are unique, and every id handed out so far is below `nextId`. */
    ghost predicate Valid()
      reads this
    {
      UniqueIds(blogs) && forall i :: 0 <= i < |blogs| ==> blogs[i].id < nextId
    }

    constructor ()
      ensures Valid() && blogs == []
    {
      blogs := [];
      nextId := 0;
    }

    /** GET /: answers 200 with every stored entry, in store order. */
    method List() returns (status: nat, body: seq<Blog>)
      requires Valid()
      ensures status == StatusOk && body == blogs
    {
      status := StatusOk;
      body := blogs;
    }

    /** POST /: defaults a falsy `likes` to 0, answers 400 when title, author or
        url is falsy, and otherwise saves the entry under a fresh id and
        answers 201 with it. */
    method Create(p: BlogPayload) returns (status: nat, body: Option<Blog>)
      requires Valid()
      modifies this
      ensures Valid()
      ensures Accept(p).None? ==>
        status == StatusBadRequest && body == None
        && blogs == old(blogs) && nextId == old(nextId)
      ensures Accept(p).Some? ==>
        var d := Accept(p).value;
        && status == StatusCreated
        && body == Some(Blog(old(nextId), d.title, d.author, d.url, d.likes))
        && blogs == old(blogs) + [body.value]
        && ListHelper.TotalLikes(blogs) == ListHelper.TotalLikes(old(blogs)) + d.likes
      ensures body.Some? ==> !HasId(old(blogs), body.value.id)
    {
      var likes := p.likes;
      if FalsyNumber(likes) {
        likes := Some(0);
      }
      if FalsyString(p.title) || FalsyString(p.author) || FalsyString(p.url) {
        status, body := StatusBadRequest, None;
      } else {
        var saved := Blog(nextId, p.title.value, p.author.value, p.url.value, likes.value);
        ListHelper.TotalLikesConcat(blogs, [saved]);
        blogs := blogs + [saved];
        nextId := nextId + 1;
        status, body := StatusCreated, Some(saved);
      }
    }

    /** DELETE /:id: removes the entry with `id`, if any, and answers 204 either way. */
    method Delete(id: Id) returns (status: nat)
      requires Valid()
      modifies this
      ensures Valid() && nextId == old(nextId)
      ensures status == StatusNoContent
      ensures blogs == Without(old(blogs), id)
      ensures !HasId(old(blogs), id) ==> blogs == old(blogs)
      ensures forall k :: 0 <= k < |old(blogs)| && old(blogs)[k].id == id ==>
        blogs == old(blogs)[..k] + old(blogs)[k + 1..] && |blogs| == |old(blogs)| - 1
    {
      if HasId(blogs, id) {
        var k :| 0 <= k < |blogs| && blogs[k].id == id;
        WithoutPresent(blogs, k);
        forall k' | 0 <= k' < |blogs| && blogs[k'].id == id
          ensures k' == k
        {
        }
      } else {
        WithoutAbsent(blogs, id);
      }
      WithoutKeepsUnique(blogs, id);
      ghost var before := blogs;
      blogs := Without(blogs, id);
      WithoutKeepsOthers(before, id);
      forall i | 0 <= i < |blogs| ensures blogs[i].id < nextId {
        assert blogs[i] in before;
      }
      status := StatusNoContent;
    }
  }

  /** The request sequence of tests/bloglist.test.js run against one store:
      seed two entries, list them, post a full entry, post one without likes,
      post one without a title, one without an author and one without a url,
      then delete the first entry. */
  method BlogListScenario()
    returns (listed: seq<Blog>, posted: Option<Blog>, defaulted: Option<Blog>,
             rejected: nat, rejectedNoAuthor: nat, rejectedNoUrl: nat, sizeAfterReject: nat,
             deleted: nat, remaining: seq<Blog>)
    ensures |listed| == 2 && listed[0].likes == 45 && listed[1].likes == 54
    ensures listed[0].id != listed[1].id
    ensures posted.Some? && posted.value.title == "Casu Marzu, wtf bro?" && posted.value.likes == 298
    ensures defaulted.Some? && defaulted.value.likes == 0
    ensures rejected == StatusBadRequest && rejectedNoAuthor == StatusBadRequest
    ensures rejectedNoUrl == StatusBadRequest && sizeAfterReject == 4
    ensures deleted == StatusNoContent && |remaining| == 3 && !HasId(remaining, listed[0].id)
  {
    var cheese := Some("https://google.com/cheese");
    var first := BlogPayload(Some("Camambert Will Save All"), Some("Arthur Smitheson"), cheese, Some(45));
    var second := BlogPayload(Some("Vegan cheese, a modern tragedy"), Some("Marcus Grujer"),
                              Some("https:cheese.com"), Some(54));
    var full := BlogPayload(Some("Casu Marzu, wtf bro?"), Some("Arthur Smitheson"), cheese, Some(298));
    var noLikes := BlogPayload(Some("Cheddar is boring, a controversial take"), Some("Arthur Smitheson"),
                               cheese, None);
    var noTitle := BlogPayload(None, Some("Reginald Toff"), Some("google.com"), Some(4));
    var noAuthor := BlogPayload(Some("I like cheese"), None, Some("google.com"), Some(4));
    var noUrl := BlogPayload(Some("I like cheese"), Some("Reginald Toff"), None, Some(4));
    assert Accept(first).Some? && Accept(second).Some? && Accept(full).Some? && Accept(noLikes).Some?;
    assert Accept(noTitle).None? && Accept(noAuthor).None? && Accept(noUrl).None?;

    var store := new BlogStore();
    var s, b;
    s, b := store.Create(first);
    s, b := store.Create(second);
    s, listed := store.List();
    assert |listed| == 2;
    s, posted := store.Create(full);
    s, defaulted := store.Create(noLikes);
    assert |store.blogs| == 4;
    rejected, b := store.Create(noTitle);
    rejectedNoAuthor, b := store.Create(noAuthor);
    rejectedNoUrl, b := store.Create(noUrl);
    sizeAfterReject := |store.blogs|;
    assert store.blogs[0] == listed[0];
    deleted := store.Delete(listed[0].id);
    remaining := store.blogs;
  }
}
