/** handleFileUploads: the media fields a catalog handler takes from the files
    the upload middleware stored, by form field. */
module MediaUploads {
  import opened Common

  /** A stored upload; only its public location is used. */
  datatype UploadedFile = UploadedFile(location: string)

  /** `req.files`: the uploads of a multipart request, by form field. */
  type Files = map<string, seq<UploadedFile>>

  datatype Media = Media(image: string, images: seq<string>, videos: seq<string>)

  /** `files.map(file => file.location)`. */
  function Locations(files: seq<UploadedFile>): (ls: seq<string>)
    ensures |ls| == |files|
    ensures forall i :: 0 <= i < |files| ==> ls[i] == files[i].location
  {
    if |files| == 0 then [] else [files[0].location] + Locations(files[1..])
  }

  /** The location of the first file of a field, or "" when the field has none. */
  function FirstLocation(files: Files, field: string): (l: string)
    ensures field in files && |files[field]| > 0 ==> l == files[field][0].location
    ensures field !in files || |files[field]| == 0 ==> l == ""
  {
    if field in files && |files[field]| > 0 then files[field][0].location else ""
  }

  /** The locations of every file of a field in upload order, or [] when it has none. */
  function AllLocations(files: Files, field: string): (ls: seq<string>)
    ensures field !in files ==> ls == []
    ensures field in files ==> ls == Locations(files[field])
  {
    if field in files && |files[field]| > 0 then Locations(files[field]) else []
  }

  /** The pet and product helper. `req.files` is undefined (None) when the
      request is not multipart; reading a field of it throws, which the
      handler's catch answers with 500. */
  function HandleFileUploads(files: Option<Files>): (m: Option<Media>)
    ensures m.None? <==> files.None?
    ensures m.Some? ==>
      && m.value.image == FirstLocation(files.value, "image")
      && m.value.images == AllLocations(files.value, "images")
      && m.value.videos == AllLocations(files.value, "videos")
  {
    match files
    case None => None
    case Some(fs) => Some(Media(FirstLocation(fs, "image"), AllLocations(fs, "images"), AllLocations(fs, "videos")))
  }

  /** The testimonial helper: the first image's location only. */
  function HandleImageUpload(files: Option<Files>): (image: Option<string>)
    ensures image.None? <==> files.None?
    ensures image.Some? ==> image.value == FirstLocation(files.value, "image")
  {
    match files
    case None => None
    case Some(fs) => Some(FirstLocation(fs, "image"))
  }

  /** Every listed location comes from an uploaded file of that field, at the
      same position, and none is dropped. */
  lemma MediaFollowsUploads(fs: Files)
    ensures var m := HandleFileUploads(Some(fs)).value;
      && (forall i :: 0 <= i < |m.images| ==> m.images[i] == fs["images"][i].location)
      && (forall i :: 0 <= i < |m.videos| ==> m.videos[i] == fs["videos"][i].location)
      && ("images" in fs ==> |m.images| == |fs["images"]|)
      && ("videos" in fs ==> |m.videos| == |fs["videos"]|)
  {
  }

  /** A multipart request without files clears every media field. */
  lemma NoFilesNoMedia()
    ensures HandleFileUploads(Some(map[])) == Some(Media("", [], []))
    ensures HandleImageUpload(Some(map[])) == Some("")
  {
  }

  /** The two helpers agree on the image. */
  lemma ImageHelpersAgree(files: Option<Files>)
    ensures HandleImageUpload(files).Some? ==> HandleImageUpload(files).value == HandleFileUploads(files).value.image
  {
  }
}
