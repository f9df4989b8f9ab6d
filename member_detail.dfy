/**
 * The member detail component's post composer: its text, type, chosen image
 * and preview, the submission check, the post data it sends and the reset,
 * plus the labels and classes of post types.
 */
module MemberDetail {
  import opened Wrappers
  import opened Text
  import opened Types
  import ApiClient

  // ----- Post types -----

  /** `getPostTypeLabel`. */
  function PostTypeLabel(postType: string): string
  {
    match postType
    case "workout" => "운동 기록"
    case "progress" => "진행 상황"
    case "note" => "메모"
    case _ => "기록"
  }

  /** `getPostTypeClass`. */
  function PostTypeClass(postType: string): string
  {
    match postType
    case "workout" => "post-type-workout"
    case "progress" => "post-type-progress"
    case "note" => "post-type-note"
    case _ => "post-type-other"
  }

  /** Each post type gets a label and a class of its own; any other value gets the shared fallback. */
  lemma PostTypeNamesDistinguish(a: PostType, b: PostType, other: string)
    requires other != "workout" && other != "progress" && other != "note"
    ensures PostTypeLabel(a.Code()) == PostTypeLabel(b.Code()) <==> a == b
    ensures PostTypeClass(a.Code()) == "post-type-" + a.Code()
    ensures PostTypeLabel(other) == "기록" && PostTypeClass(other) == "post-type-other"
    ensures PostTypeLabel(other) != PostTypeLabel(a.Code()) && PostTypeClass(other) != PostTypeClass(a.Code())
  {
  }

  // ----- Submission -----

  /** The check of `handlePostSubmit`: a member is selected and the text is not all whitespace. */
  predicate CanPost(member: Option<int>, content: string)
  {
    member.Some? && Trim(content) != ""
  }

  /** The submit button's `disabled`: while sending, or while the text is all whitespace. */
  predicate SubmitDisabled(loading: bool, content: string)
  {
    loading || Trim(content) == ""
  }

  /** With a member shown and nothing in flight, the button is enabled exactly when the text would pass the check. */
  lemma DisabledMatchesCheck(member: int, content: string)
    ensures !SubmitDisabled(false, content) <==> CanPost(Some(member), content)
    ensures SubmitDisabled(false, content) <==> forall i :: 0 <= i < |content| ==> IsJsSpace(content[i])
  {
    TrimEmptyIff(content);
  }

  const MemberKey := "member"
  const PostTypeKey := "post_type"
  const ContentKey := "content"
  const ImageKey := "image"

  /** `postData`: the member, the type and the trimmed text, then the image when one was chosen. */
  function Payload(member: int, postType: PostType, content: string, image: Option<ApiClient.File>): seq<(string, ApiClient.FieldValue)>
  {
    PostFields(member, postType, content) + ImageField(image)
  }

  function PostFields(member: int, postType: PostType, content: string): seq<(string, ApiClient.FieldValue)>
  {
    [(MemberKey, ApiClient.Num(member)), (PostTypeKey, ApiClient.Str(postType.Code())), (ContentKey, ApiClient.Str(Trim(content)))]
  }

  function ImageField(image: Option<ApiClient.File>): seq<(string, ApiClient.FieldValue)>
  {
    if image.Some? then [(ImageKey, ApiClient.FileValue(image.value))] else []
  }

  /** `postData` as `handlePostSubmit` assembles it: the image entry only when an image was chosen. */
  method BuildPostData(member: int, postType: PostType, content: string, image: Option<ApiClient.File>)
    returns (postData: seq<(string, ApiClient.FieldValue)>)
    ensures postData == Payload(member, postType, content, image)
  {
    postData := [(MemberKey, ApiClient.Num(member)), (PostTypeKey, ApiClient.Str(postType.Code())),
      (ContentKey, ApiClient.Str(Trim(content)))];
    if image.Some? {
      postData := postData + [(ImageKey, ApiClient.FileValue(image.value))];
    }
  }

  /** Three present, non-file entries give three text parts in their order. */
  lemma ThreeTextParts(a: (string, ApiClient.FieldValue), b: (string, ApiClient.FieldValue), c: (string, ApiClient.FieldValue))
    requires ApiClient.Present(a.1) && !a.1.FileValue?
    requires ApiClient.Present(b.1) && !b.1.FileValue?
    requires ApiClient.Present(c.1) && !c.1.FileValue?
    ensures ApiClient.FormParts([a, b, c]) ==
      [ApiClient.TextPart(a.0, ApiClient.Stringify(a.1)), ApiClient.TextPart(b.0, ApiClient.Stringify(b.1)),
       ApiClient.TextPart(c.0, ApiClient.Stringify(c.1))]
  {
    assert [a, b, c] == [a] + [b] + [c];
    ApiClient.FormPartsConcat([a] + [b], [c]);
    ApiClient.FormPartsConcat([a], [b]);
    FormPartsOne(a.0, a.1);
    FormPartsOne(b.0, b.1);
    FormPartsOne(c.0, c.1);
  }

  /** The multipart body `createPost` sends for the post data: three text parts, then the image as a file part. */
  lemma PayloadParts(member: int, postType: PostType, content: string, image: Option<ApiClient.File>)
    ensures ApiClient.FormParts(Payload(member, postType, content, image)) ==
      [ApiClient.TextPart(MemberKey, IntToDecimal(member)),
       ApiClient.TextPart(PostTypeKey, postType.Code()),
       ApiClient.TextPart(ContentKey, Trim(content))]
      + (if image.Some? then [ApiClient.FilePart(ImageKey, image.value)] else [])
  {
    PostFieldsParts(member, postType, content);
    ImageFieldParts(image);
    ApiClient.FormPartsConcat(PostFields(member, postType, content), ImageField(image));
  }

  lemma PostFieldsParts(member: int, postType: PostType, content: string)
    ensures ApiClient.FormParts(PostFields(member, postType, content)) ==
      [ApiClient.TextPart(MemberKey, IntToDecimal(member)),
       ApiClient.TextPart(PostTypeKey, postType.Code()),
       ApiClient.TextPart(ContentKey, Trim(content))]
  {
    ThreeTextParts((MemberKey, ApiClient.Num(member)), (PostTypeKey, ApiClient.Str(postType.Code())),
      (ContentKey, ApiClient.Str(Trim(content))));
  }

  lemma ImageFieldParts(image: Option<ApiClient.File>)
    ensures ApiClient.FormParts(ImageField(image)) == if image.Some? then [ApiClient.FilePart(ImageKey, image.value)] else []
  {
    if image.Some? {
      FormPartsOne(ImageKey, ApiClient.FileValue(image.value));
    }
  }

  /** One entry's parts. */
  lemma FormPartsOne(key: string, v: ApiClient.FieldValue)
    ensures var p := ApiClient.PartOf(key, v);
      ApiClient.FormParts([(key, v)]) == if p.Some? then [p.value] else []
  {
    assert [(key, v)][..0] == [];
  }

  const ContentRequired := "내용을 입력해주세요."

  /** The composer's state. */
  class PostComposer {
    var content: string
    var postType: PostType
    var image: Option<ApiClient.File>
    var preview: string
    var showForm: bool
    var error: string

    constructor ()
      ensures content == "" && postType == Workout && image == None && preview == ""
      ensures !showForm && error == ""
    {
      content := "";
      postType := Workout;
      image := None;
      preview := "";
      showForm := false;
      error := "";
    }

    /** The header button: shows a hidden composer and hides a shown one. */
    method ToggleForm()
      modifies this
      ensures showForm == !old(showForm)
      ensures content == old(content) && postType == old(postType) && image == old(image)
      ensures preview == old(preview) && error == old(error)
    {
      showForm := !showForm;
    }

    /** The textarea's `onChange`: the typed text becomes the content. */
    method SetContent(text: string)
      modifies this
      ensures content == text
      ensures postType == old(postType) && image == old(image) && preview == old(preview)
      ensures showForm == old(showForm) && error == old(error)
    {
      content := text;
    }

    /** The type select's `onChange`: the chosen type becomes the post type. */
    method SetPostType(t: PostType)
      modifies this
      ensures postType == t
      ensures content == old(content) && image == old(image) && preview == old(preview)
      ensures showForm == old(showForm) && error == old(error)
    {
      postType := t;
    }

    /** `handleImageChange`: a chosen file is kept; no file changes nothing. The preview arrives later. */
    method ChooseImage(file: Option<ApiClient.File>)
      modifies this
      ensures image == (if file.Some? then file else old(image))
      ensures content == old(content) && postType == old(postType) && preview == old(preview)
      ensures showForm == old(showForm) && error == old(error)
    {
      if file.Some? {
        image := file;
      }
    }

    /** The file reader finished: its data URL becomes the preview. */
    method PreviewLoaded(dataUrl: string)
      modifies this
      ensures preview == dataUrl
      ensures content == old(content) && postType == old(postType) && image == old(image)
      ensures showForm == old(showForm) && error == old(error)
    {
      preview := dataUrl;
    }

    /** `removeImage`: both the chosen image and its preview are cleared. */
    method RemoveImage()
      modifies this
      ensures image == None && preview == ""
      ensures content == old(content) && postType == old(postType)
      ensures showForm == old(showForm) && error == old(error)
    {
      image := None;
      preview := "";
    }

    /**
     * `handlePostSubmit` for the selected member (None when there is none):
     * a failed check sets the error and sends nothing; otherwise the post data
     * is sent, and `outcome` is the server's rejection, if any. A created post
     * empties and hides the composer.
     */
    method HandlePostSubmit(member: Option<int>, outcome: Option<ApiClient.ErrorInfo>)
      returns (sent: Option<seq<(string, ApiClient.FieldValue)>>)
      modifies this
      ensures sent.Some? <==> CanPost(member, old(content))
      ensures sent.Some? ==> sent.value == Payload(member.value, old(postType), old(content), old(image))
      ensures !CanPost(member, old(content)) ==>
        error == ContentRequired && content == old(content) && postType == old(postType) &&
        image == old(image) && preview == old(preview) && showForm == old(showForm)
      ensures CanPost(member, old(content)) && outcome.None? ==>
        error == "" && content == "" && postType == Workout && image == None && preview == "" && !showForm
      ensures CanPost(member, old(content)) && outcome.Some? ==>
        error == ApiClient.GetErrorMessage(outcome.value) && content == old(content) && postType == old(postType) &&
        image == old(image) && preview == old(preview) && showForm == old(showForm)
    {
      if member.None? || Trim(content) == "" {
        error := ContentRequired;
        return None;
      }
      error := "";
      var postData := BuildPostData(member.value, postType, content, image);
      sent := Some(postData);
      match outcome
      case None =>
        Reset();
      case Some(e) =>
        error := ApiClient.GetErrorMessage(e);
    }

    /** After a created post: the composer is emptied and hidden. */
    method Reset()
      modifies this
      ensures content == "" && postType == Workout && image == None && preview == "" && !showForm
      ensures error == old(error)
    {
      content := "";
      postType := Workout;
      image := None;
      preview := "";
      showForm := false;
    }
  }
}
