/** The request fields `upload` sends, once the image library has looked at the media. */
module Upload {

  import opened Wrappers
  import JsonText

  /** What opening the media as an image gave: no format identified, or the format's name. */
  datatype Detection = Unidentified | Identified(format: string)

  /** `IFPostVisibility`. */
  datatype Visibility = Public | SubscribersOnly

  function VisibilityValue(v: Visibility): string {
    match v
    case Public => "public"
    case SubscribersOnly => "subscribers"
  }

  /** The post's `type` field and the name of the multipart file field the media goes in. */
  datatype MediaKind = MediaKind(mtype: string, ftype: string)

  /** Unidentified media is a video clip; identified media is an image, a gif when the format
      is "GIF" and a picture otherwise. */
  function Classify(d: Detection): (k: MediaKind)
    ensures (k.ftype == "image") <==> d.Identified?
    ensures (k.ftype == "video") <==> d.Unidentified?
    ensures (k.mtype == "video_clip") <==> d.Unidentified?
    ensures (k.mtype == "gif") <==> (d.Identified? && d.format == "GIF")
    ensures (k.mtype == "pic") <==> (d.Identified? && d.format != "GIF")
  {
    match d
    case Unidentified => MediaKind("video_clip", "video")
    case Identified(format) => MediaKind(if format == "GIF" then "gif" else "pic", "image")
  }

  /** The form data and the file field name of the upload request. */
  datatype UploadForm = UploadForm(description: string, tags: string, mtype: string, visibility: string, fileField: string)

  /** `upload(media, description, tags, visibility)` after detection: the description defaults to
      "" and the tags to the empty list, written as JSON. */
  function UploadRequest(d: Detection, description: Option<string>, tags: Option<seq<string>>, visibility: Visibility): (f: UploadForm)
    ensures f.description == if description.Some? then description.value else ""
    ensures JsonText.LoadStrings(f.tags) == Some(if tags.Some? then tags.value else [])
    ensures (f.tags == "[]") <==> (tags.None? || tags.value == [])
    ensures JsonText.AllPrintable(f.tags)
    ensures MediaKind(f.mtype, f.fileField) == Classify(d)
    ensures f.visibility == VisibilityValue(visibility)
  {
    var kind := Classify(d);
    var tagList := if tags.Some? then tags.value else [];
    JsonText.DumpStringsRoundTrip(tagList);
    UploadForm(if description.Some? then description.value else "",
               JsonText.DumpStrings(tagList),
               kind.mtype,
               VisibilityValue(visibility),
               kind.ftype)
  }
}
