/**
 * The admin list columns for posts and comments: the truncated content
 * preview and the image column's text when a post has no image.
 */
module PostAdmin {
  import opened Wrappers

  const PostPreviewLimit: nat := 50
  const CommentPreviewLimit: nat := 30
  const Ellipsis := "..."

  /** Up to `limit` characters are shown as they are; a longer text keeps its first `limit` characters and gains "...". */
  function ContentPreview(content: string, limit: nat): (r: string)
    ensures |r| <= limit + 3
    ensures |content| <= limit ==> r == content
    ensures |content| > limit ==> |r| == limit + 3 && r[..limit] == content[..limit] && r[limit..] == Ellipsis
  {
    if |content| > limit then content[..limit] + Ellipsis else content
  }

  /** `PostAdmin.content_preview`. */
  function PostContentPreview(content: string): (r: string)
    ensures |r| <= 53
  {
    ContentPreview(content, PostPreviewLimit)
  }

  /** `PostCommentAdmin.content_preview`. */
  function CommentContentPreview(content: string): (r: string)
    ensures |r| <= 33
  {
    ContentPreview(content, CommentPreviewLimit)
  }

  /** Previewing a preview changes nothing. */
  lemma PreviewIdempotent(content: string, limit: nat)
    ensures ContentPreview(ContentPreview(content, limit), limit) == ContentPreview(content, limit)
  {
    var r := ContentPreview(content, limit);
    if |content| > limit {
      assert r[..limit] + Ellipsis == r;
    }
  }

  /** The preview begins with the content, up to the limit. */
  lemma PreviewIsPrefixed(content: string, limit: nat)
    ensures var k := if |content| <= limit then |content| else limit;
      ContentPreview(content, limit)[..k] == content[..k]
  {
  }

  const NoImageText := "이미지 없음"

  /** `image_preview`: the fixed text when the post has no image (an absent or empty file name), otherwise a thumbnail tag for its URL. */
  function ImagePreview(imageUrl: Option<string>): (r: string)
    ensures imageUrl.None? || imageUrl.value == "" ==> r == NoImageText
    ensures imageUrl.Some? && imageUrl.value != "" ==> r != NoImageText
  {
    if imageUrl.Some? && imageUrl.value != "" then
      "<img src=\"" + imageUrl.value + "\" width=\"50\" height=\"50\" style=\"object-fit: cover; border-radius: 5px;\"/>"
    else NoImageText
  }
}
