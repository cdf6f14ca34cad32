/**
 * The post composer of client/src/components/CreatePost.jsx: the live hashtag list, the
 * image checks, the submit guard and the reset after a successful post. Uploading the image
 * and reading its preview are I/O and are not modelled; `preview` only records whether one
 * is shown.
 */
module PostComposer {
  import opened Wrappers
  import opened Text
  import Seqs
  import opened Hashtags

  /** Five megabytes: the largest image the composer accepts. */
  const MaxImageBytes: nat := 5 * 1024 * 1024

  datatype ImageFile = ImageFile(size: nat, mime: string)

  datatype ImageProblem = TooLarge | NotAnImage

  datatype Composer = Composer(
    text: string,
    image: Option<ImageFile>,
    preview: bool,
    error: Option<ImageProblem>,
    hashtags: seq<string>)

  /** The state the composer mounts with. */
  function Fresh(): Composer
  {
    Composer("", None, false, None, [])
  }

  /** `handleTextChange`: the text and the hashtags extracted from it. */
  function TextChange(c: Composer, text: string): (r: Composer)
    ensures r.text == text && r.hashtags == ClientTags(text)
    ensures r.image == c.image && r.preview == c.preview && r.error == c.error
  {
    c.(text := text, hashtags := ClientTags(text))
  }

  /** `file.type.match("image.*")`. */
  predicate IsImageType(mime: string)
  {
    Contains(mime, "image")
  }

  /**
   * `handleImageChange`: no file changes nothing; a file over five megabytes, or one whose
   * type is not an image type, sets the error and is not stored; otherwise the file is stored
   * and the error cleared.
   */
  function ImageChange(c: Composer, file: Option<ImageFile>): (r: Composer)
    ensures r.text == c.text && r.hashtags == c.hashtags && r.preview == c.preview
    ensures file.None? ==> r == c
    ensures file.Some? && file.value.size > MaxImageBytes ==> r.image == c.image && r.error == Some(TooLarge)
    ensures file.Some? && file.value.size <= MaxImageBytes && !IsImageType(file.value.mime) ==>
              r.image == c.image && r.error == Some(NotAnImage)
    ensures file.Some? && file.value.size <= MaxImageBytes && IsImageType(file.value.mime) ==>
              r.image == file && r.error.None?
  {
    match file
    case None => c
    case Some(f) =>
      if f.size > MaxImageBytes then c.(error := Some(TooLarge))
      else if !IsImageType(f.mime) then c.(error := Some(NotAnImage))
      else c.(image := file, error := None)
  }

  /** The file reader finished: the preview is shown. */
  function PreviewLoaded(c: Composer): (r: Composer)
    ensures r.preview && r == c.(preview := true)
  {
    c.(preview := true)
  }

  /** `removeImage`: the image, its preview and the error are cleared; the text stays. */
  function RemoveImage(c: Composer): (r: Composer)
    ensures r.image.None? && !r.preview && r.error.None?
    ensures r.text == c.text && r.hashtags == c.hashtags
    ensures MaySubmit(r) <==> !Blank(c.text)
  {
    c.(image := None, preview := false, error := None)
  }

  /** Only an accepted file is ever stored: every stored image is small enough and an image. */
  predicate ImageAcceptable(c: Composer)
  {
    c.image.Some? ==> c.image.value.size <= MaxImageBytes && IsImageType(c.image.value.mime)
  }

  /** The hashtag list always belongs to the current text. */
  predicate TagsCurrent(c: Composer)
  {
    c.hashtags == ClientTags(c.text)
  }

  /** The submit guard: some non-blank text or an image. */
  predicate MaySubmit(c: Composer)
  {
    !Blank(c.text) || c.image.Some?
  }

  /** The request body of a post, the image standing for its uploaded URL. */
  datatype NewPost = NewPost(desc: string, image: Option<ImageFile>, tags: seq<string>)

  /** `handleSubmit`: nothing happens without text or image; otherwise the post is sent. */
  function Submit(c: Composer): (r: Option<NewPost>)
    ensures r.Some? <==> MaySubmit(c)
    ensures r.Some? ==> r.value == NewPost(c.text, c.image, c.hashtags)
  {
    if !MaySubmit(c) then None else Some(NewPost(c.text, c.image, c.hashtags))
  }

  /** After a successful post: text, image, preview, hashtags and error all cleared. */
  function AfterSuccess(c: Composer): (r: Composer)
    ensures r.text == "" && r.image.None? && !r.preview && r.hashtags == [] && r.error.None?
    ensures !MaySubmit(r)
  {
    Fresh()
  }

  /** No text has no hashtags. */
  lemma NoTextNoTags()
    ensures ClientTags("") == []
  {
    assert Matches("") == [];
  }

  /** Every handler keeps the hashtag list current and the stored image acceptable. */
  lemma HandlersKeepInvariant(c: Composer, text: string, file: Option<ImageFile>)
    requires TagsCurrent(c) && ImageAcceptable(c)
    ensures TagsCurrent(TextChange(c, text)) && ImageAcceptable(TextChange(c, text))
    ensures TagsCurrent(ImageChange(c, file)) && ImageAcceptable(ImageChange(c, file))
    ensures TagsCurrent(PreviewLoaded(c)) && ImageAcceptable(PreviewLoaded(c))
    ensures TagsCurrent(RemoveImage(c)) && ImageAcceptable(RemoveImage(c))
    ensures TagsCurrent(AfterSuccess(c)) && ImageAcceptable(AfterSuccess(c))
  {
    NoTextNoTags();
  }

  /**
   * The tags a post is sent with hold each server tag once: the server recomputes them from
   * `desc` with duplicates, and both lists have the same members.
   */
  lemma SentTagsMatchServer(c: Composer)
    requires TagsCurrent(c) && MaySubmit(c)
    ensures var p := Submit(c).value;
            Seqs.NoDup(p.tags) && forall t :: t in p.tags <==> t in ServerTags(Some(p.desc))
  {
  }
}
