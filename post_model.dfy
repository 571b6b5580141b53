/** The Post document with its embedded code snippets and comments (the
    Mongoose schemas of Server/src/models/Post.js): validators, defaults and
    the Post collection. */
module PostModel {
  import opened Common
  import opened Text

  type PostId = Id
  type UserId = Id

  const TitleMax: nat := 200
  const CommentMax: nat := 1000

  /** A code snippet; `language` and `code` are required, `description` is not. */
  datatype CodeSnippet = CodeSnippet(language: Option<string>, code: Option<string>, description: Option<string>)

  predicate ValidSnippet(s: CodeSnippet)
  {
    Truthy(s.language) && Truthy(s.code)
  }

  /** A comment: a required user, a required content of at most 1000
      characters, and its own likes. */
  datatype Comment = Comment(user: UserId, content: Option<string>, likes: seq<UserId>)

  predicate ValidComment(c: Comment)
  {
    c.user != "" && Truthy(c.content) && |c.content.value| <= CommentMax
  }

  datatype Post = Post(
    title: string,
    content: string,
    author: UserId,
    tags: seq<string>,
    codeSnippets: seq<CodeSnippet>,
    coverImage: string,
    likes: seq<UserId>,
    comments: seq<Comment>,
    readTime: nat,
    isPublished: bool,
    viewCount: nat)

  /** The post validators: a title of 1 to 200 characters, a content, an
      author, and valid snippets and comments. */
  predicate ValidPost(p: Post)
  {
    && p.title != "" && |p.title| <= TitleMax
    && p.content != ""
    && p.author != ""
    && (forall k :: 0 <= k < |p.codeSnippets| ==> ValidSnippet(p.codeSnippets[k]))
    && (forall k :: 0 <= k < |p.comments| ==> ValidComment(p.comments[k]))
  }

  /** A new post: no likes, no comments, and the defaults readTime 0,
      isPublished true, viewCount 0. */
  function NewPost(title: string, content: string, author: UserId, tags: seq<string>,
                   codeSnippets: seq<CodeSnippet>, coverImage: string): (p: Post)
    ensures p.title == title && p.content == content && p.author == author
    ensures p.tags == TrimAll(tags) && p.codeSnippets == codeSnippets && p.coverImage == coverImage
    ensures p.likes == [] && p.comments == []
    ensures p.readTime == 0 && p.isPublished && p.viewCount == 0
    ensures ValidPost(p) <==>
      && title != "" && |title| <= TitleMax && content != "" && author != ""
      && (forall k :: 0 <= k < |codeSnippets| ==> ValidSnippet(codeSnippets[k]))
  {
    Post(title, content, author, TrimAll(tags), codeSnippets, coverImage, [], [], 0, true, 0)
  }

  /** The Post collection. */
  class Posts {
    var posts: map<PostId, Post>

    ghost predicate Valid()
      reads this
    {
      forall id :: id in posts ==> ValidPost(posts[id])
    }

    constructor ()
      ensures Valid() && posts == map[]
    {
      posts := map[];
    }
  }
}
