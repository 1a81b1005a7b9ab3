/**
 * The state transitions of the image-block editor
 * (src/components/admin/blocks/ImageBlock.tsx).
 *
 * Each handler builds a replacement payload from the current one by
 * overriding some fields, and hands it to the block's change callback. A
 * handler that emits nothing returns `None`: the callback is not called and
 * the block keeps its payload.
 */
module ImageBlockEditing {
  import opened Wrappers
  import opened BlockTypes

  /**
   * `handleFileChange`: when the file input yields a file, the payload gets
   * that file as its pending upload and the browser's preview URL for it
   * (`createObjectUrl` stands for `URL.createObjectURL`) as its `url`; when
   * no file was selected nothing is emitted.
   */
  function HandleFileChange(
    img: ImagePayload,
    selected: Option<FileHandle>,
    createObjectUrl: FileHandle -> string): (r: Option<ImagePayload>)
    ensures r.None? <==> selected.None?
    ensures r.Some? ==>
      && r.value.url == createObjectUrl(selected.value)
      && r.value.file == Selected(selected.value)
      && r.value.alt == img.alt
      && r.value.caption == img.caption
  {
    match selected
    case None => None
    case Some(f) => Some(img.(url := createObjectUrl(f), file := Selected(f)))
  }

  /** `handleClear`: drops the image, leaving an empty `url` and a `null` file. */
  function HandleClear(img: ImagePayload): (r: ImagePayload)
    ensures r.url == "" && r.file == Null
    ensures r.alt == img.alt && r.caption == img.caption
  {
    img.(url := "", file := Null)
  }

  /** The alt-text input: sets `alt` and nothing else. */
  function EditAlt(img: ImagePayload, text: string): (r: ImagePayload)
    ensures r.alt == Some(text)
    ensures r.url == img.url && r.caption == img.caption && r.file == img.file
  {
    img.(alt := Some(text))
  }

  /** The caption input: sets `caption` and nothing else. */
  function EditCaption(img: ImagePayload, text: string): (r: ImagePayload)
    ensures r.caption == Some(text)
    ensures r.url == img.url && r.alt == img.alt && r.file == img.file
  {
    img.(caption := Some(text))
  }

  /** Selecting a file and then clearing leaves no pending upload behind. */
  lemma {:induction false} SelectThenClear(img: ImagePayload, f: FileHandle, createObjectUrl: FileHandle -> string)
    ensures HandleClear(HandleFileChange(img, Some(f), createObjectUrl).value) == HandleClear(img)
  {
  }
}
