/** The bulletin board (`BoardManager` in board.js): an in-memory list of
    posts, newest first, with an id counter, an edit mode, a developer mode,
    and the three inputs of the write form. */
module Board {
  import opened Wrappers
  import opened Text
  import opened Seqs
  import opened Sorting

  /** A post; `date` is the ISO timestamp string it was written or last
      edited at. */
  datatype Post = Post(id: int, title: string, author: string, content: string, date: string, views: int)

  /** Every id is used once and is below the id counter, so the counter is a
      fresh id. */
  predicate IdsFresh(posts: seq<Post>, counter: int) {
    && (forall i, j :: 0 <= i < j < |posts| ==> posts[i].id != posts[j].id)
    && (forall i :: 0 <= i < |posts| ==> posts[i].id < counter)
  }

  /** `findIndex(p => p.id === id)`: the first position with that id, or -1. */
  function FindIndex(posts: seq<Post>, id: int): (r: int)
    ensures -1 <= r < |posts|
    ensures r == -1 <==> forall j :: 0 <= j < |posts| ==> posts[j].id != id
    ensures r >= 0 ==> posts[r].id == id && forall j :: 0 <= j < r ==> posts[j].id != id
  {
    if posts == [] then -1
    else if posts[0].id == id then 0
    else
      var r := FindIndex(posts[1..], id);
      if r == -1 then -1 else r + 1
  }

  /** The lookup of `updatePost` with the edit id; no post matches a cleared
      edit id. */
  function EditIndex(posts: seq<Post>, editId: Option<int>): (r: int)
    ensures -1 <= r < |posts|
    ensures r >= 0 ==> editId.Some? && posts[r].id == editId.value
  {
    match editId
    case None => -1
    case Some(id) => FindIndex(posts, id)
  }

  /** The guard of `deletePost` and `startEditPost`: developer mode, or a
      non-empty trimmed author input equal to the post's author. */
  predicate MayChange(developerMode: bool, authorInput: string, post: Post) {
    developerMode || (Trim(authorInput) != "" && Trim(authorInput) == post.author)
  }

  /** The new list and counter of a successful `addPost`, None when a trimmed
      field is empty. */
  function Publish(posts: seq<Post>, counter: int, title: string, author: string, content: string,
                   now: string): (r: Option<(seq<Post>, int)>)
    ensures r.None? <==> Trim(title) == "" || Trim(author) == "" || Trim(content) == ""
    ensures r.Some? ==> r.value.1 == counter + 1 && |r.value.0| == |posts| + 1
    ensures r.Some? ==> r.value.0[0] == Post(counter, Trim(title), Trim(author), Trim(content), now, 0)
    ensures r.Some? ==> r.value.0[1..] == posts
  {
    var t, a, c := Trim(title), Trim(author), Trim(content);
    if t == "" || a == "" || c == "" then None
    else Some(([Post(counter, t, a, c, now, 0)] + posts, counter + 1))
  }

  /** Publishing keeps the ids distinct and below the counter. */
  lemma PublishKeepsIdsFresh(posts: seq<Post>, counter: int, title: string, author: string, content: string,
                             now: string)
    requires IdsFresh(posts, counter)
    requires Publish(posts, counter, title, author, content, now).Some?
    ensures IdsFresh(Publish(posts, counter, title, author, content, now).value.0,
                     Publish(posts, counter, title, author, content, now).value.1)
  {
    var r := Publish(posts, counter, title, author, content, now).value.0;
    forall i, j | 0 <= i < j < |r| ensures r[i].id != r[j].id {
      assert r[j] == posts[j - 1];
      if i > 0 {
        assert r[i] == posts[i - 1];
      }
    }
    forall i | 0 <= i < |r| ensures r[i].id < counter + 1 {
      if i > 0 {
        assert r[i] == posts[i - 1];
      }
    }
  }

  /** The list after a successful `updatePost`, None when a trimmed field is
      empty or no post has the edit id: the found post gets the new title,
      author, content and date and keeps its id and views. */
  function Revise(posts: seq<Post>, editId: Option<int>, title: string, author: string, content: string,
                  now: string): (r: Option<seq<Post>>)
    ensures r.None? <==> Trim(title) == "" || Trim(author) == "" || Trim(content) == ""
                         || EditIndex(posts, editId) == -1
    ensures r.Some? ==> |r.value| == |posts|
    ensures r.Some? ==> forall j :: 0 <= j < |posts| && j != EditIndex(posts, editId) ==> r.value[j] == posts[j]
    ensures r.Some? ==> var i := EditIndex(posts, editId);
      && r.value[i].id == posts[i].id == editId.value && r.value[i].views == posts[i].views
      && r.value[i].title == Trim(title) && r.value[i].author == Trim(author)
      && r.value[i].content == Trim(content) && r.value[i].date == now
  {
    var t, a, c := Trim(title), Trim(author), Trim(content);
    if t == "" || a == "" || c == "" then None
    else
      var i := EditIndex(posts, editId);
      if i == -1 then None
      else Some(posts[i := posts[i].(title := t, author := a, content := c, date := now)])
  }

  /** Editing keeps every id, so the ids stay fresh. */
  lemma ReviseKeepsIdsFresh(posts: seq<Post>, counter: int, editId: Option<int>, title: string, author: string,
                            content: string, now: string)
    requires IdsFresh(posts, counter)
    requires Revise(posts, editId, title, author, content, now).Some?
    ensures IdsFresh(Revise(posts, editId, title, author, content, now).value, counter)
  {
    var r := Revise(posts, editId, title, author, content, now).value;
    assert forall j :: 0 <= j < |r| ==> r[j].id == posts[j].id;
  }

  /** `posts.filter(post => post.id !== id)`. */
  function Remove(posts: seq<Post>, id: int): (r: seq<Post>)
    ensures |r| <= |posts|
  {
    Filter(posts, (p: Post) => p.id != id)
  }

  /** Removing keeps, in order, exactly the posts with another id. */
  lemma RemoveSpec(posts: seq<Post>, id: int)
    ensures IsSubsequence(Remove(posts, id), posts)
    ensures forall p :: p in Remove(posts, id) <==> p in posts && p.id != id
  {
    FilterSubsequence(posts, (p: Post) => p.id != id);
  }

  /** Removing keeps the ids fresh, and no post with the removed id is left. */
  lemma RemoveKeepsIdsFresh(posts: seq<Post>, counter: int, id: int)
    requires IdsFresh(posts, counter)
    ensures IdsFresh(Remove(posts, id), counter)
    ensures FindIndex(Remove(posts, id), id) == -1
  {
    var r := Remove(posts, id);
    RemoveSpec(posts, id);
    var idx := FilterEmbedding(posts, (p: Post) => p.id != id);
    forall i, j | 0 <= i < j < |r| ensures r[i].id != r[j].id {
      assert r[i] == posts[idx[i]] && r[j] == posts[idx[j]] && idx[i] < idx[j];
    }
    forall i | 0 <= i < |r| ensures r[i].id < counter {
      assert r[i] in posts;
    }
    forall j | 0 <= j < |r| ensures r[j].id != id {
      assert r[j] in r;
    }
  }

  /** The test of `filterPosts`: the lower-cased term occurs in the lower-cased
      title, content or author. */
  predicate PostMatches(post: Post, term: string, lower: CaseMap) {
    || Contains(Lower(post.title, lower), term)
    || Contains(Lower(post.content, lower), term)
    || Contains(Lower(post.author, lower), term)
  }

  function SearchPosts(posts: seq<Post>, term: string, lower: CaseMap): (r: seq<Post>)
    ensures IsSubsequence(r, posts)
    ensures forall p :: p in r <==> p in posts && PostMatches(p, term, lower)
  {
    FilterSubsequence(posts, p => PostMatches(p, term, lower));
    Filter(posts, p => PostMatches(p, term, lower))
  }

  /** An empty term lists every post. */
  lemma EmptyTermListsAll(posts: seq<Post>, lower: CaseMap)
    ensures SearchPosts(posts, "", lower) == posts
  {
    forall p | p in posts ensures PostMatches(p, "", lower) {
      ContainsEmpty(Lower(p.title, lower));
    }
    FilterAll(posts, p => PostMatches(p, "", lower));
  }

  function NewestFirst(timeOf: string -> int): (Post, Post) -> int {
    (a: Post, b: Post) => timeOf(b.date) - timeOf(a.date)
  }

  function OldestFirst(timeOf: string -> int): (Post, Post) -> int {
    (a: Post, b: Post) => timeOf(a.date) - timeOf(b.date)
  }

  /** The list `sortPosts` displays: a sorted copy for "latest" (newest
      first), "oldest" and "title" (by the collation), the list itself for any
      other choice. `timeOf` reads a date string as a time, `collate` is the
      locale's string comparison. */
  function SortedPosts(posts: seq<Post>, sortType: string, timeOf: string -> int,
                       collate: (string, string) -> int): (r: seq<Post>)
    ensures multiset(r) == multiset(posts)
    ensures sortType !in {"latest", "oldest", "title"} ==> r == posts
  {
    if sortType == "latest" then SortBy(posts, NewestFirst(timeOf))
    else if sortType == "oldest" then SortBy(posts, OldestFirst(timeOf))
    else if sortType == "title" then SortBy(posts, (a: Post, b: Post) => collate(a.title, b.title))
    else posts
  }

  /** "latest" lists the posts by non-increasing time, "oldest" by
      non-decreasing time. */
  lemma SortedPostsByTime(posts: seq<Post>, timeOf: string -> int, collate: (string, string) -> int)
    ensures var r := SortedPosts(posts, "latest", timeOf, collate);
      forall i, j :: 0 <= i < j < |r| ==> timeOf(r[i].date) >= timeOf(r[j].date)
    ensures var r := SortedPosts(posts, "oldest", timeOf, collate);
      forall i, j :: 0 <= i < j < |r| ==> timeOf(r[i].date) <= timeOf(r[j].date)
  {
    var newest := (p: Post) => -timeOf(p.date);
    var oldest := (p: Post) => timeOf(p.date);
    assert OrdersAsKey(posts, NewestFirst(timeOf), newest);
    SortByAscending(posts, NewestFirst(timeOf), newest);
    assert OrdersAsKey(posts, OldestFirst(timeOf), oldest);
    SortByAscending(posts, OldestFirst(timeOf), oldest);
  }

  /** Posts with the same time keep their relative order under both time
      sorts. */
  lemma SortedPostsTiesKeepOrder(posts: seq<Post>, timeOf: string -> int, collate: (string, string) -> int,
                                 t: int)
    ensures Filter(SortedPosts(posts, "latest", timeOf, collate), (p: Post) => timeOf(p.date) == t)
         == Filter(posts, (p: Post) => timeOf(p.date) == t)
    ensures Filter(SortedPosts(posts, "oldest", timeOf, collate), (p: Post) => timeOf(p.date) == t)
         == Filter(posts, (p: Post) => timeOf(p.date) == t)
  {
    SortByKeepsOrderOf(posts, NewestFirst(timeOf), (p: Post) => timeOf(p.date) == t);
    SortByKeepsOrderOf(posts, OldestFirst(timeOf), (p: Post) => timeOf(p.date) == t);
  }

  class BoardManager {
    var posts: seq<Post>
    var currentPostId: int
    var isDeveloperMode: bool
    /** The id being edited; the board is in edit mode when it is set and not 0. */
    var currentEditId: Option<int>
    var titleInput: string
    var authorInput: string
    var contentInput: string

    predicate Valid()
      reads this
    {
      IdsFresh(posts, currentPostId)
    }

    predicate Editing()
      reads this
    {
      currentEditId.Some? && currentEditId.value != 0
    }

    /** The board from what was stored: the posts (none if absent), the id
        counter (1 if absent, unreadable or 0) and whether the stored developer
        flag is "true". */
    constructor(storedPosts: Option<seq<Post>>, storedPostId: Option<int>, storedDeveloperMode: Option<string>)
      ensures posts == storedPosts.GetOr([])
      ensures currentPostId == if storedPostId.Some? && storedPostId.value != 0 then storedPostId.value else 1
      ensures isDeveloperMode <==> storedDeveloperMode == Some("true")
      ensures currentEditId == None && !Editing()
      ensures titleInput == "" && authorInput == "" && contentInput == ""
    {
      posts := storedPosts.GetOr([]);
      currentPostId := if storedPostId.Some? && storedPostId.value != 0 then storedPostId.value else 1;
      isDeveloperMode := storedDeveloperMode == Some("true");
      currentEditId := None;
      titleInput, authorInput, contentInput := "", "", "";
    }

    /** The user types into the write form. */
    method FillForm(title: string, author: string, content: string)
      modifies this`titleInput, this`authorInput, this`contentInput
      ensures titleInput == title && authorInput == author && contentInput == content
    {
      titleInput, authorInput, contentInput := title, author, content;
    }

    /** `toggleDeveloperMode`: negates the flag. */
    method ToggleDeveloperMode()
      modifies this`isDeveloperMode
      ensures isDeveloperMode == !old(isDeveloperMode)
    {
      isDeveloperMode := !isDeveloperMode;
    }

    /** `setDeveloperMode`. */
    method SetDeveloperMode(enabled: bool)
      modifies this`isDeveloperMode
      ensures isDeveloperMode == enabled
    {
      isDeveloperMode := enabled;
    }

    /** `clearForm`. */
    method ClearForm()
      modifies this`titleInput, this`authorInput, this`contentInput
      ensures titleInput == "" && authorInput == "" && contentInput == ""
    {
      titleInput, authorInput, contentInput := "", "", "";
    }

    /** `updatePost`: on empty fields or a missing post nothing changes;
        otherwise the post is revised in place, edit mode ends and the form is
        cleared. */
    method UpdatePost(now: string)
      modifies this`posts, this`currentEditId, this`titleInput, this`authorInput, this`contentInput
      ensures var r := Revise(old(posts), old(currentEditId), old(titleInput), old(authorInput),
                              old(contentInput), now);
        && (r.None? ==>
              && posts == old(posts) && currentEditId == old(currentEditId)
              && titleInput == old(titleInput) && authorInput == old(authorInput)
              && contentInput == old(contentInput))
        && (r.Some? ==>
              && posts == r.value && currentEditId == None
              && titleInput == "" && authorInput == "" && contentInput == "")
      ensures old(Valid()) ==> Valid()
    {
      var t, a, c := Trim(titleInput), Trim(authorInput), Trim(contentInput);
      if t == "" || a == "" || c == "" {
        return;
      }
      var i := EditIndex(posts, currentEditId);
      if i == -1 {
        return;
      }
      ghost var before := posts;
      posts := posts[i := posts[i].(title := t, author := a, content := c, date := now)];
      if IdsFresh(before, currentPostId) {
        ReviseKeepsIdsFresh(before, currentPostId, currentEditId, titleInput, authorInput, contentInput, now);
      }
      currentEditId := None;
      ClearForm();
    }

    /** `addPost`: in edit mode it is `updatePost`; otherwise empty fields
        change nothing, and a complete form is published as a new first post
        with the counter as its id, and the form is cleared. */
    method AddPost(now: string)
      modifies this`posts, this`currentPostId, this`currentEditId, this`titleInput, this`authorInput,
               this`contentInput
      ensures old(Editing()) ==> currentPostId == old(currentPostId)
      ensures old(Editing()) ==>
        var r := Revise(old(posts), old(currentEditId), old(titleInput), old(authorInput), old(contentInput), now);
        && (r.None? ==>
              && posts == old(posts) && currentEditId == old(currentEditId)
              && titleInput == old(titleInput) && authorInput == old(authorInput)
              && contentInput == old(contentInput))
        && (r.Some? ==>
              && posts == r.value && currentEditId == None
              && titleInput == "" && authorInput == "" && contentInput == "")
      ensures !old(Editing()) ==>
        var r := Publish(old(posts), old(currentPostId), old(titleInput), old(authorInput),
                         old(contentInput), now);
        && currentEditId == old(currentEditId)
        && (r.None? ==>
              && posts == old(posts) && currentPostId == old(currentPostId)
              && titleInput == old(titleInput) && authorInput == old(authorInput)
              && contentInput == old(contentInput))
        && (r.Some? ==>
              && posts == r.value.0 && currentPostId == r.value.1
              && titleInput == "" && authorInput == "" && contentInput == "")
      ensures old(Valid()) ==> Valid()
    {
      if Editing() {
        UpdatePost(now);
        return;
      }
      var t, a, c := Trim(titleInput), Trim(authorInput), Trim(contentInput);
      if t == "" || a == "" || c == "" {
        return;
      }
      if Valid() {
        PublishKeepsIdsFresh(posts, currentPostId, titleInput, authorInput, contentInput, now);
      }
      var newPost := Post(currentPostId, t, a, c, now, 0);
      currentPostId := currentPostId + 1;
      posts := [newPost] + posts;
      ClearForm();
    }

    /** `deletePost`: an unknown id, a refused author check or a declined
        confirmation change nothing; otherwise every post with the id is
        removed and the others keep their order. */
    method DeletePost(id: int, confirmed: bool)
      modifies this`posts
      ensures var i := FindIndex(old(posts), id);
        posts == if i >= 0 && MayChange(isDeveloperMode, authorInput, old(posts)[i]) && confirmed
                 then Remove(old(posts), id) else old(posts)
      ensures old(Valid()) ==> Valid()
    {
      var i := FindIndex(posts, id);
      if i < 0 {
        return;
      }
      if !isDeveloperMode {
        var currentAuthor := Trim(authorInput);
        if currentAuthor == "" || currentAuthor != posts[i].author {
          return;
        }
      }
      if confirmed {
        if Valid() {
          RemoveKeepsIdsFresh(posts, currentPostId, id);
        }
        posts := Remove(posts, id);
      }
    }

    /** `startEditPost`: with the same guards as `deletePost`, fills the form
        with the post and enters edit mode for its id; otherwise nothing
        changes. */
    method StartEditPost(id: int)
      modifies this`currentEditId, this`titleInput, this`authorInput, this`contentInput
      ensures var i := FindIndex(posts, id);
        if i >= 0 && MayChange(isDeveloperMode, old(authorInput), posts[i]) then
          && currentEditId == Some(id)
          && titleInput == posts[i].title && authorInput == posts[i].author && contentInput == posts[i].content
        else
          && currentEditId == old(currentEditId)
          && titleInput == old(titleInput) && authorInput == old(authorInput) && contentInput == old(contentInput)
    {
      var i := FindIndex(posts, id);
      if i < 0 {
        return;
      }
      if !isDeveloperMode {
        var currentAuthor := Trim(authorInput);
        if currentAuthor == "" || currentAuthor != posts[i].author {
          return;
        }
      }
      titleInput, authorInput, contentInput := posts[i].title, posts[i].author, posts[i].content;
      currentEditId := Some(id);
    }

    /** `cancelEdit`: leaves edit mode and clears the form. */
    method CancelEdit()
      modifies this`currentEditId, this`titleInput, this`authorInput, this`contentInput
      ensures currentEditId == None && !Editing()
      ensures titleInput == "" && authorInput == "" && contentInput == ""
    {
      currentEditId := None;
      ClearForm();
    }

    /** `filterPosts`: the posts matching the lower-cased (untrimmed) term, in
        order. */
    method FilterPosts(searchValue: string, lower: CaseMap) returns (shown: seq<Post>)
      ensures shown == SearchPosts(posts, Lower(searchValue, lower), lower)
      ensures IsSubsequence(shown, posts)
    {
      shown := SearchPosts(posts, Lower(searchValue, lower), lower);
    }

    /** `sortPosts`: a sorted copy; the posts themselves are not reordered. */
    method SortPosts(sortType: string, timeOf: string -> int, collate: (string, string) -> int)
      returns (sorted: seq<Post>)
      ensures sorted == SortedPosts(posts, sortType, timeOf, collate)
      ensures multiset(sorted) == multiset(posts)
    {
      sorted := SortedPosts(posts, sortType, timeOf, collate);
    }
  }
}
