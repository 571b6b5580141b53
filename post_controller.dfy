/** The post endpoints of Server/src/controllers/postController.js: creation
    with its cleaning of content, title, tags and snippets; the view counter;
    owner-only update and delete; the like toggle; comments. */
module PostController {
  import opened Common
  import opened Text
  import opened PostModel

  /** The content cleaning of `createPost`: when the first line contains the
      author's username, that line is dropped and the remaining lines are
      re-joined and trimmed. */
  function CleanContent(content: string, username: string): string
  {
    var lines := Split(content, '\n');
    if Includes(lines[0], username) then Trim(Join(lines[1..], '\n')) else content
  }

  /** Said without `split`/`join`: the first line is what precedes the first
      line break; if it mentions the username the result is the trimmed text
      after that line break ("" for single-line content), otherwise the
      content is kept as it is. */
  lemma CleanContentSpec(content: string, username: string)
    ensures var i := IndexOf(content, '\n');
      CleanContent(content, username) ==
        if !Includes(content[..i], username) then content
        else if i < |content| then Trim(content[i + 1..])
        else ""
  {
    SplitHead(content, '\n');
    var i := IndexOf(content, '\n');
    var lines := Split(content, '\n');
    assert lines[0] == content[..i];
    if i < |content| {
      JoinSplit(content[i + 1..], '\n');
      assert Join(lines[1..], '\n') == content[i + 1..];
    } else {
      assert lines[1..] == [];
    }
  }

  /** Because `includes('')` holds, a user with an empty username always loses
      the first line of the post's content. */
  lemma CleanContentEmptyUsername(content: string)
    ensures CleanContent(content, "") ==
      if '\n' in content then Trim(content[IndexOf(content, '\n') + 1..]) else ""
  {
    CleanContentSpec(content, "");
    IncludesEmpty(content[..IndexOf(content, '\n')]);
  }

  /** How `codeSnippets` arrives in the request body: absent (or falsy), as an
      array, or as JSON text together with what `JSON.parse` makes of it
      (None when it throws). */
  datatype SnippetInput =
    | NoSnippets
    | SnippetArray(items: seq<CodeSnippet>)
    | SnippetJson(text: string, parsed: Option<seq<CodeSnippet>>)

  /** The snippets `createPost` stores: [] unless a non-empty array, or a
      non-empty JSON text that parses, was supplied. */
  function StoredSnippets(input: SnippetInput): (r: seq<CodeSnippet>)
    ensures r != [] ==>
      || (input.SnippetArray? && r == input.items)
      || (input.SnippetJson? && input.text != "" && input.parsed == Some(r))
    ensures input.NoSnippets? ==> r == []
    ensures input.SnippetArray? ==> r == input.items
    ensures input.SnippetJson? && input.text != "" && input.parsed.Some? ==> r == input.parsed.value
    ensures input.SnippetJson? && (input.text == "" || input.parsed.None?) ==> r == []
  {
    match input
    case NoSnippets => []
    case SnippetArray(items) => items
    case SnippetJson(text, parsed) =>
      if text != "" && parsed.Some? then parsed.value else []
  }

  /** The post `createPost` builds from the request before validation. */
  function PostData(user: Requester, title: string, content: string, tags: Option<string>,
                    snippets: SnippetInput, coverImage: Option<string>): Post
  {
    NewPost(Trim(title), CleanContent(content, user.username), user.id, CommaList(tags),
            StoredSnippets(snippets), OrElse(coverImage, ""))
  }

  /** POST /posts: 401 without an authenticated user, 400 without a title or a
      content, 500 when the cleaned post fails validation (a title over 200
      characters or blank, a cleaned content that is empty, an invalid
      snippet); otherwise the post is stored under the fresh id. Nothing is
      stored on any error. */
  method CreatePost(db: Posts, user: Option<Requester>, title: Option<string>, content: Option<string>,
                    tags: Option<string>, snippets: SnippetInput, coverImage: Option<string>,
                    newId: PostId) returns (r: Reply<PostId>)
    requires db.Valid() && newId !in db.posts
    modifies db
    ensures db.Valid()
    ensures user.None? || user.value.id == "" ==>
      r == Fail(401, "Not authenticated") && db.posts == old(db.posts)
    ensures user.Some? && user.value.id != "" && (!Truthy(title) || !Truthy(content)) ==>
      r == Fail(400, "Title and content are required") && db.posts == old(db.posts)
    ensures user.Some? && user.value.id != "" && Truthy(title) && Truthy(content) ==>
      var p := PostData(user.value, title.value, content.value, tags, snippets, coverImage);
      if ValidPost(p) then r == Ok(201, newId) && db.posts == old(db.posts)[newId := p]
      else r.Fail? && r.status == 500 && db.posts == old(db.posts)
  {
    if user.None? || user.value.id == "" {
      return Fail(401, "Not authenticated");
    }
    if !Truthy(title) || !Truthy(content) {
      return Fail(400, "Title and content are required");
    }
    var p := PostData(user.value, title.value, content.value, tags, snippets, coverImage);
    if !ValidPost(p) {
      return Fail(500, "Internal server error: Post validation failed");
    }
    db.posts := db.posts[newId := p];
    r := Ok(201, newId);
  }

  /** GET /posts/:id: 404 for an unknown post; otherwise the view count goes
      up by exactly one and nothing else changes. */
  method GetPost(db: Posts, id: PostId) returns (r: Reply<Post>)
    requires db.Valid()
    modifies db
    ensures db.Valid()
    ensures id !in old(db.posts) ==> r == Fail(404, "Post not found") && db.posts == old(db.posts)
    ensures id in old(db.posts) ==>
      && db.posts == old(db.posts)[id := old(db.posts[id]).(viewCount := old(db.posts[id]).viewCount + 1)]
      && r == Ok(200, db.posts[id])
  {
    if id !in db.posts {
      return Fail(404, "Post not found");
    }
    var p := db.posts[id];
    db.posts := db.posts[id := p.(viewCount := p.viewCount + 1)];
    r := Ok(200, db.posts[id]);
  }

  /** The editable fields a PUT body may carry. */
  datatype PostPatch = PostPatch(
    title: Option<string>,
    content: Option<string>,
    tags: Option<seq<string>>,
    codeSnippets: Option<seq<CodeSnippet>>,
    coverImage: Option<string>,
    isPublished: Option<bool>)

  /** `findByIdAndUpdate(id, body)`: every supplied field is overwritten (tags
      through the trimming setter); the author, the likes, the comments and
      the counters are never touched. */
  function ApplyPatch(p: Post, patch: PostPatch): (q: Post)
    ensures q.author == p.author && q.likes == p.likes && q.comments == p.comments
    ensures q.readTime == p.readTime && q.viewCount == p.viewCount
  {
    p.(title := if patch.title.Some? then patch.title.value else p.title,
       content := if patch.content.Some? then patch.content.value else p.content,
       tags := if patch.tags.Some? then TrimAll(patch.tags.value) else p.tags,
       codeSnippets := if patch.codeSnippets.Some? then patch.codeSnippets.value else p.codeSnippets,
       coverImage := if patch.coverImage.Some? then patch.coverImage.value else p.coverImage,
       isPublished := if patch.isPublished.Some? then patch.isPublished.value else p.isPublished)
  }

  /** An empty body changes nothing. */
  lemma ApplyEmptyPatch(p: Post)
    ensures ApplyPatch(p, PostPatch(None, None, None, None, None, None)) == p
  {
  }

  /** PUT /posts/:id: 404 for an unknown post and 403 for anyone but the
      author, leaving the post untouched; otherwise the patched post is stored
      if it passes the validators (500 and no change if not). */
  method UpdatePost(db: Posts, id: PostId, requester: UserId, patch: PostPatch) returns (r: Reply<Post>)
    requires db.Valid()
    modifies db
    ensures db.Valid()
    ensures id !in old(db.posts) ==> r == Fail(404, "Post not found") && db.posts == old(db.posts)
    ensures id in old(db.posts) && old(db.posts[id]).author != requester ==>
      r == Fail(403, "Not authorized to update this post") && db.posts == old(db.posts)
    ensures id in old(db.posts) && old(db.posts[id]).author == requester ==>
      var q := ApplyPatch(old(db.posts[id]), patch);
      if ValidPost(q) then r == Ok(200, q) && db.posts == old(db.posts)[id := q]
      else r.Fail? && r.status == 500 && db.posts == old(db.posts)
  {
    if id !in db.posts {
      return Fail(404, "Post not found");
    }
    var p := db.posts[id];
    if p.author != requester {
      return Fail(403, "Not authorized to update this post");
    }
    var q := ApplyPatch(p, patch);
    if !ValidPost(q) {
      return Fail(500, "Validation failed");
    }
    db.posts := db.posts[id := q];
    r := Ok(200, q);
  }

  /** DELETE /posts/:id: 404 for an unknown post and 403 for anyone but the
      author, leaving the post in place; otherwise exactly that post is
      removed. */
  method DeletePost(db: Posts, id: PostId, requester: UserId) returns (r: Reply<string>)
    requires db.Valid()
    modifies db
    ensures db.Valid()
    ensures id !in old(db.posts) ==> r == Fail(404, "Post not found") && db.posts == old(db.posts)
    ensures id in old(db.posts) && old(db.posts[id]).author != requester ==>
      r == Fail(403, "Not authorized to delete this post") && db.posts == old(db.posts)
    ensures id in old(db.posts) && old(db.posts[id]).author == requester ==>
      r == Ok(200, "Post deleted successfully") && db.posts == old(db.posts) - {id}
  {
    if id !in db.posts {
      return Fail(404, "Post not found");
    }
    if db.posts[id].author != requester {
      return Fail(403, "Not authorized to delete this post");
    }
    db.posts := db.posts - {id};
    r := Ok(200, "Post deleted successfully");
  }

  /** The likes after a toggle by `u`: every `u` removed if `u` had liked,
      otherwise `u` appended once. */
  function ToggledLikes(likes: seq<UserId>, u: UserId): (r: seq<UserId>)
    ensures u in r <==> u !in likes
    ensures forall v :: v in r && v != u ==> v in likes
    ensures forall v :: v in likes && v != u ==> v in r
    ensures |r| == if u in likes then |likes| - Count(likes, u) else |likes| + 1
  {
    if u in likes then RemoveAll(likes, u) else likes + [u]
  }

  /** Toggling twice restores whether `u` likes the post, and restores the
      list exactly when `u` had not liked it. */
  lemma ToggleTwice(likes: seq<UserId>, u: UserId)
    ensures u in ToggledLikes(ToggledLikes(likes, u), u) <==> u in likes
    ensures u !in likes ==> ToggledLikes(ToggledLikes(likes, u), u) == likes
  {
    if u !in likes {
      RemoveAllAppendSelf(likes, u);
      RemoveAllAbsent(likes, u);
    }
  }

  datatype LikeState = LikeState(isLiked: bool, likeCount: nat)

  /** POST /posts/:id/like: 404 for an unknown post; otherwise the requester's
      like is toggled, and the reply says whether the post is now liked and
      how many likes it has. */
  method ToggleLike(db: Posts, id: PostId, requester: UserId) returns (r: Reply<LikeState>)
    requires db.Valid()
    modifies db
    ensures db.Valid()
    ensures id !in old(db.posts) ==> r == Fail(404, "Post not found") && db.posts == old(db.posts)
    ensures id in old(db.posts) ==>
      var p := old(db.posts[id]);
      var likes := ToggledLikes(p.likes, requester);
      && db.posts == old(db.posts)[id := p.(likes := likes)]
      && r == Ok(200, LikeState(requester !in p.likes, |likes|))
  {
    if id !in db.posts {
      return Fail(404, "Post not found");
    }
    var p := db.posts[id];
    var hasLiked := requester in p.likes;
    var likes: seq<UserId>;
    if hasLiked {
      likes := RemoveAll(p.likes, requester);
    } else {
      likes := p.likes + [requester];
    }
    db.posts := db.posts[id := p.(likes := likes)];
    r := Ok(200, LikeState(!hasLiked, |likes|));
  }

  /** POST /posts/:id/comments: 404 for an unknown post, 500 when the comment
      fails validation (no content, or over 1000 characters); otherwise exactly
      one comment by the requester is appended and returned. */
  method AddComment(db: Posts, id: PostId, requester: UserId, content: Option<string>) returns (r: Reply<Comment>)
    requires db.Valid()
    modifies db
    ensures db.Valid()
    ensures id !in old(db.posts) ==> r == Fail(404, "Post not found") && db.posts == old(db.posts)
    ensures id in old(db.posts) && !ValidComment(Comment(requester, content, [])) ==>
      r.Fail? && r.status == 500 && db.posts == old(db.posts)
    ensures id in old(db.posts) && ValidComment(Comment(requester, content, [])) ==>
      var p := old(db.posts[id]);
      var c := Comment(requester, content, []);
      && db.posts == old(db.posts)[id := p.(comments := p.comments + [c])]
      && r == Ok(201, c)
      && r.data == db.posts[id].comments[|db.posts[id].comments| - 1]
  {
    if id !in db.posts {
      return Fail(404, "Post not found");
    }
    var c := Comment(requester, content, []);
    if !ValidComment(c) {
      return Fail(500, "Post validation failed");
    }
    var p := db.posts[id];
    db.posts := db.posts[id := p.(comments := p.comments + [c])];
    var stored := db.posts[id].comments;
    r := Ok(201, stored[|stored| - 1]);
  }
}
