/**
 * The content-block data model of a project document (src/types.ts).
 *
 * A block is a tagged record `{ id, type, content }`. The tag is one of five
 * block types and the shape of `content` is chosen by the tag. Because the
 * editor's update operation accepts an arbitrary replacement payload, the tag
 * and the payload are kept as two fields here, and `WellTyped` states that
 * they agree.
 *
 * The stored list is taken as it is when a project loads, so a block may carry
 * a tag that is none of the five. Such a block is kept, with its payload left
 * opaque, and the editor's operations treat it like any other block.
 */
module BlockTypes {
  import opened Wrappers

  /** `BlockType`: the five block tags. */
  datatype BlockType = Title | Paragraph | Image | Video | Embed

  /** The `type` of a block: one of the five block types, or a stored name this editor does not know. */
  datatype Tag = Known(blockType: BlockType) | Unknown(name: string)

  /** The heading level of a title block. */
  datatype HeadingLevel = H1 | H2 | H3

  /** The host of a video block. */
  datatype VideoProvider = YouTube | Vimeo | OtherProvider

  /** A browser `File` chosen by the user: opaque to the editor, identified by a handle. */
  datatype FileHandle = FileHandle(handle: nat)

  /**
   * The transient `file` field of an image block. It may be missing
   * (`undefined`), explicitly `null`, or hold a selected file. Only a selected
   * file is truthy, so only `Selected` is uploaded on save.
   */
  datatype PendingFile = Absent | Null | Selected(file: FileHandle)

  /** The payload of an image block: `url` is always present, the rest is optional. */
  datatype ImagePayload = ImagePayload(
    url: string,
    alt: Option<string>,
    caption: Option<string>,
    file: PendingFile)

  /** One payload shape per block tag. */
  datatype Content =
    | TitleContent(text: string, level: HeadingLevel)
    | ParagraphContent(html: string)
    | ImageContent(image: ImagePayload)
    | VideoContent(url: string, provider: Option<VideoProvider>)
    | EmbedContent(code: string)
    | OpaquePayload(json: string)  // the payload of a block with an unknown tag, kept as stored

  type BlockId = string

  /** A content block of the document. */
  datatype Block = Block(id: BlockId, kind: Tag, content: Content)

  /** The block type whose payload shape `c` has; none for an opaque payload. */
  function ShapeOf(c: Content): Option<BlockType>
  {
    match c
    case TitleContent(_, _) => Some(Title)
    case ParagraphContent(_) => Some(Paragraph)
    case ImageContent(_) => Some(Image)
    case VideoContent(_, _) => Some(Video)
    case EmbedContent(_) => Some(Embed)
    case OpaquePayload(_) => None
  }

  /** A payload fits a tag: a known tag's own shape, or an opaque payload for an unknown tag. */
  predicate Fits(tag: Tag, c: Content)
  {
    match tag
    case Known(t) => ShapeOf(c) == Some(t)
    case Unknown(_) => c.OpaquePayload?
  }

  /** The names of the five block types. */
  const TAG_NAMES: set<string> := {"title", "paragraph", "image", "video", "embed"}

  /** An unknown tag never spells one of the five names. */
  predicate ValidTag(tag: Tag)
  {
    tag.Unknown? ==> tag.name !in TAG_NAMES
  }

  /** A block whose tag is valid and whose payload has the shape its tag declares. */
  predicate WellTyped(b: Block)
  {
    ValidTag(b.kind) && Fits(b.kind, b.content)
  }

  /** The string under which a tag is stored in `content_blocks`. */
  function TagName(tag: Tag): string
  {
    match tag
    case Known(Title) => "title"
    case Known(Paragraph) => "paragraph"
    case Known(Image) => "image"
    case Known(Video) => "video"
    case Known(Embed) => "embed"
    case Unknown(name) => name
  }

  /** Reads a stored tag: exactly the five names are block types; any other name is kept as it is. */
  function ParseTag(s: string): (r: Tag)
    ensures r.Known? <==> s in TAG_NAMES
    ensures TagName(r) == s && ValidTag(r)
  {
    if s == "title" then Known(Title)
    else if s == "paragraph" then Known(Paragraph)
    else if s == "image" then Known(Image)
    else if s == "video" then Known(Video)
    else if s == "embed" then Known(Embed)
    else Unknown(s)
  }

  /** A valid tag reads back as itself from its stored name, so distinct valid tags have distinct names. */
  lemma TagNameRoundTrip(tag: Tag)
    requires ValidTag(tag)
    ensures ParseTag(TagName(tag)) == tag
  {
  }

  // ---------------------------------------------------------------------------
  // The stored form of the block list (the record's `content_blocks` field)

  /** A block as the record stores it: its `type` is a plain string. */
  datatype StoredBlock = StoredBlock(id: BlockId, typeName: string, content: Content)

  /** The stored form of a block. */
  function WriteBlock(b: Block): StoredBlock
  {
    StoredBlock(b.id, TagName(b.kind), b.content)
  }

  /** Reads a stored block; its tag is whatever its `type` string names. */
  function ReadBlock(sb: StoredBlock): (b: Block)
    ensures WriteBlock(b) == sb && ValidTag(b.kind)
  {
    Block(sb.id, ParseTag(sb.typeName), sb.content)
  }

  /** The stored form of a block list, block by block. */
  function WriteBlocks(bs: seq<Block>): (ss: seq<StoredBlock>)
    ensures |ss| == |bs|
    ensures forall i :: 0 <= i < |bs| ==> ss[i] == WriteBlock(bs[i])
  {
    if bs == [] then [] else [WriteBlock(bs[0])] + WriteBlocks(bs[1..])
  }

  /**
   * Loading `content_blocks`: every stored block is kept, in order, and
   * storing the loaded list gives back exactly what was stored, unknown
   * tags included.
   */
  function ReadBlocks(ss: seq<StoredBlock>): (bs: seq<Block>)
    ensures |bs| == |ss|
    ensures WriteBlocks(bs) == ss
    ensures forall i :: 0 <= i < |ss| ==> ValidTag(bs[i].kind)
  {
    if ss == [] then []
    else
      var rest := ReadBlocks(ss[1..]);
      [ReadBlock(ss[0])] + rest
  }

  /** Loading reads each stored block on its own. */
  lemma {:induction false} ReadBlocksAt(ss: seq<StoredBlock>, i: nat)
    requires i < |ss|
    ensures ReadBlocks(ss)[i] == ReadBlock(ss[i])
  {
    if i > 0 {
      ReadBlocksAt(ss[1..], i - 1);
    }
  }

  /** Storing a list of well-typed blocks and loading it back gives the same list. */
  lemma {:induction false} StoreThenLoad(bs: seq<Block>)
    requires forall i :: 0 <= i < |bs| ==> WellTyped(bs[i])
    ensures ReadBlocks(WriteBlocks(bs)) == bs
  {
    if bs != [] {
      assert forall i :: 0 <= i < |bs[1..]| ==> bs[1..][i] == bs[i + 1];
      StoreThenLoad(bs[1..]);
      TagNameRoundTrip(bs[0].kind);
    }
  }

  /** The stored form of a heading level, one of the literal union `'h1' | 'h2' | 'h3'` of `TitleBlock`. */
  function LevelName(l: HeadingLevel): string
  {
    match l
    case H1 => "h1"
    case H2 => "h2"
    case H3 => "h3"
  }

  /**
   * Reads a heading level: only "h1", "h2" and "h3" are levels. Title payloads
   * load as values, so this encoding of the union stands on its own.
   */
  function ParseLevel(s: string): (r: Option<HeadingLevel>)
    ensures r.Some? <==> s in {"h1", "h2", "h3"}
    ensures r.Some? ==> LevelName(r.value) == s
  {
    if s == "h1" then Some(H1)
    else if s == "h2" then Some(H2)
    else if s == "h3" then Some(H3)
    else None
  }

  /** The stored form of a video provider, one of the literal union `'youtube' | 'vimeo' | 'other'` of `VideoBlock`. */
  function ProviderName(p: VideoProvider): string
  {
    match p
    case YouTube => "youtube"
    case Vimeo => "vimeo"
    case OtherProvider => "other"
  }

  /**
   * Reads a video provider: only "youtube", "vimeo" and "other" are providers.
   * Video payloads load as values, so this encoding of the union stands on its own.
   */
  function ParseProvider(s: string): (r: Option<VideoProvider>)
    ensures r.Some? <==> s in {"youtube", "vimeo", "other"}
    ensures r.Some? ==> ProviderName(r.value) == s
  {
    if s == "youtube" then Some(YouTube)
    else if s == "vimeo" then Some(Vimeo)
    else if s == "other" then Some(OtherProvider)
    else None
  }
}
