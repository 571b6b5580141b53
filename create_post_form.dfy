/** The post form of Client/src/components/posts/CreatePost.jsx: its initial
    state and the editors of the code-snippet list, and what the server makes
    of the snippets it sends. */
module CreatePostForm {
  import opened Common
  import PostModel

  /** A snippet being edited; every field is text. */
  datatype SnippetDraft = SnippetDraft(language: string, code: string, description: string)

  datatype FormState = FormState(title: string, content: string, tags: string, codeSnippets: seq<SnippetDraft>)

  /** The initial form has empty texts and no snippets. */
  function InitialForm(): (f: FormState)
    ensures f.codeSnippets == [] && f.title == "" && f.content == "" && f.tags == ""
  {
    FormState("", "", "", [])
  }

  /** The snippet that `addCodeSnippet` appends. */
  const NewSnippet := SnippetDraft("javascript", "", "")

  /** `addCodeSnippet`: one new JavaScript snippet with empty code and
      description is appended; the existing ones are unchanged. */
  function AddCodeSnippet(f: FormState): (g: FormState)
    ensures g.codeSnippets == f.codeSnippets + [NewSnippet]
    ensures g.(codeSnippets := f.codeSnippets) == f
  {
    f.(codeSnippets := f.codeSnippets + [NewSnippet])
  }

  datatype SnippetField = Language | Code | Description

  function FieldValue(s: SnippetDraft, field: SnippetField): string
  {
    match field
    case Language => s.language
    case Code => s.code
    case Description => s.description
  }

  function WithField(s: SnippetDraft, field: SnippetField, value: string): (t: SnippetDraft)
    ensures FieldValue(t, field) == value
    ensures forall other :: other != field ==> FieldValue(t, other) == FieldValue(s, other)
  {
    match field
    case Language => s.(language := value)
    case Code => s.(code := value)
    case Description => s.(description := value)
  }

  /** `updateCodeSnippet(i, field, value)`: only `field` of snippet `i`
      changes; every other snippet, every other field of snippet `i`, and the
      rest of the form stay as they were. */
  function UpdateCodeSnippet(f: FormState, i: nat, field: SnippetField, value: string): (g: FormState)
    ensures |g.codeSnippets| == |f.codeSnippets|
    ensures i < |f.codeSnippets| ==> FieldValue(g.codeSnippets[i], field) == value
    ensures i < |f.codeSnippets| ==> forall other :: other != field ==>
      FieldValue(g.codeSnippets[i], other) == FieldValue(f.codeSnippets[i], other)
    ensures forall j :: 0 <= j < |f.codeSnippets| && j != i ==> g.codeSnippets[j] == f.codeSnippets[j]
    ensures g.(codeSnippets := f.codeSnippets) == f
  {
    if i < |f.codeSnippets| then
      f.(codeSnippets := ReplaceAt(f.codeSnippets, i, WithField(f.codeSnippets[i], field, value)))
    else f
  }

  /** `removeCodeSnippet(i)`: exactly snippet `i` goes, the rest keep their
      order. */
  function RemoveCodeSnippet(f: FormState, i: nat): (g: FormState)
    ensures i < |f.codeSnippets| ==> g.codeSnippets == f.codeSnippets[..i] + f.codeSnippets[i + 1..]
    ensures i >= |f.codeSnippets| ==> g == f
    ensures g.(codeSnippets := f.codeSnippets) == f
  {
    f.(codeSnippets := DeleteAt(f.codeSnippets, i))
  }

  /** Adding a snippet and removing it again gives the form back. */
  lemma AddThenRemove(f: FormState)
    ensures RemoveCodeSnippet(AddCodeSnippet(f), |f.codeSnippets|) == f
  {
    assert (f.codeSnippets + [NewSnippet])[..|f.codeSnippets|] == f.codeSnippets;
  }

  /** The snippet object as it arrives at the server. */
  function Sent(s: SnippetDraft): (c: PostModel.CodeSnippet)
    ensures c.language == Some(s.language) && c.code == Some(s.code) && c.description == Some(s.description)
  {
    PostModel.CodeSnippet(Some(s.language), Some(s.code), Some(s.description))
  }

  function SentAll(ss: seq<SnippetDraft>): (r: seq<PostModel.CodeSnippet>)
    ensures |r| == |ss|
    ensures forall k :: 0 <= k < |ss| ==> r[k] == Sent(ss[k])
  {
    seq(|ss|, k requires 0 <= k < |ss| => Sent(ss[k]))
  }

  /** A snippet whose code was left empty (as `addCodeSnippet` creates it)
      fails the server's snippet validator, so a post sent with it is
      rejected whatever the other fields hold. */
  lemma EmptyCodeRejected(f: FormState, k: nat, title: string, content: string, author: PostModel.UserId,
                          tags: seq<string>, coverImage: string)
    requires k < |f.codeSnippets| && f.codeSnippets[k].code == ""
    ensures !PostModel.ValidSnippet(Sent(f.codeSnippets[k]))
    ensures !PostModel.ValidPost(PostModel.NewPost(title, content, author, tags, SentAll(f.codeSnippets), coverImage))
  {
    assert SentAll(f.codeSnippets)[k] == Sent(f.codeSnippets[k]);
  }
}
