/**
 * The state of one editing session of the project editor
 * (src/components/admin/ProjectEditor.tsx): the block list, the form fields,
 * and the `loading` and `saving` flags that the component updates step by
 * step while it loads a project and while it saves one.
 *
 * The record store and the file store are outside the model: a load is given
 * as its outcome, a save as whether the store accepted the write, and each
 * image upload as a function that yields a URL or fails.
 */
module EditorSession {
  import opened Wrappers
  import opened BlockTypes
  import opened ProjectForm
  import opened ImageBlockEditing
  import BlockList

  /** The values held by the form's inputs, as raw strings before validation. */
  datatype FormFields = FormFields(title: string, slug: string, excerpt: Option<string>, status: string)

  /** A project record as the store returns it; `contentBlocks` is `None` when the field is absent or falsy. */
  datatype StoredProject = StoredProject(
    title: string,
    slug: string,
    excerpt: Option<string>,
    status: string,
    contentBlocks: Option<seq<StoredBlock>>)

  /** The outcome of `getOne` on the project collection. */
  datatype FetchOutcome = FetchFailed | Fetched(record: StoredProject)

  /** The fields written to the store by a save. */
  datatype ProjectRecord = ProjectRecord(form: ProjectFormValues, contentBlocks: seq<StoredBlock>)

  /** What a press of the save button led to. */
  datatype SaveOutcome =
    | Rejected(errors: seq<FormError>)   // the form failed validation; nothing is submitted
    | UploadFailed                       // some image upload failed; no record is written
    | StoreFailed(attempted: ProjectRecord)  // the create or update call failed
    | Created(record: ProjectRecord)     // a new record; the page then navigates to it
    | Updated(record: ProjectRecord)     // the existing record was overwritten
    | NoTarget                           // neither new nor an existing id: nothing is written

  class Session {
    /** The route's project id: `Some("new")` for a new project. */
    const projectId: Option<string>
    var blocks: seq<Block>
    var form: FormFields
    var loading: bool
    var saving: bool

    /** The route opens a project that does not exist yet. */
    predicate IsNew()
    {
      projectId == Some("new")
    }

    /** The route names an existing record (a non-empty id other than "new"). */
    predicate HasRecord()
    {
      !IsNew() && projectId.Some? && projectId.value != ""
    }

    /** The component's initial state: no blocks, status "draft", loading unless new. */
    constructor (projectId: Option<string>)
      ensures this.projectId == projectId
      ensures blocks == [] && form == FormFields("", "", None, "draft")
      ensures loading == !IsNew() && !saving
    {
      this.projectId := projectId;
      blocks := [];
      form := FormFields("", "", None, "draft");
      loading := projectId != Some("new");
      saving := false;
    }

    /**
     * `fetchProject`: runs only for an existing record. On success the form
     * takes the record's fields and the block list its `content_blocks`,
     * unless that field is absent or falsy; on failure nothing but the
     * loading flag changes. Loading ends either way.
     */
    method FetchProject(outcome: FetchOutcome)
      requires loading || !HasRecord()
      modifies this
      ensures !HasRecord() ==> blocks == old(blocks) && form == old(form) && loading == old(loading)
      ensures HasRecord() ==> !loading
      ensures saving == old(saving)
      ensures HasRecord() && outcome.Fetched? ==>
        var rec := outcome.record;
        && form == FormFields(rec.title, rec.slug, rec.excerpt, rec.status)
        && blocks == (if rec.contentBlocks.Some? then ReadBlocks(rec.contentBlocks.value) else old(blocks))
      ensures (!HasRecord() || outcome.FetchFailed?) ==> blocks == old(blocks) && form == old(form)
    {
      if HasRecord() {
        if outcome.Fetched? {
          var rec := outcome.record;
          form := FormFields(rec.title, rec.slug, rec.excerpt, rec.status);
          if rec.contentBlocks.Some? {
            blocks := ReadBlocks(rec.contentBlocks.value);
          }
        }
        loading := false;
      }
    }

    /** The user types into the form's inputs. */
    method EditForm(fields: FormFields)
      requires !loading
      modifies this`form
      ensures form == fields
    {
      form := fields;
    }

    /** `addBlock` applied to the session's block list. */
    method AddBlock(t: BlockType, freshId: BlockId)
      requires !loading && !BlockList.HasId(blocks, freshId)
      modifies this`blocks
      ensures blocks == BlockList.AddBlock(old(blocks), t, freshId)
      ensures BlockList.Consistent(old(blocks)) ==> BlockList.Consistent(blocks)
    {
      if BlockList.Consistent(blocks) {
        BlockList.AddKeepsConsistent(blocks, t, freshId);
      }
      blocks := BlockList.AddBlock(blocks, t, freshId);
    }

    /** `updateBlock`, the target of every block editor's change callback. */
    method UpdateBlock(id: BlockId, c: Content)
      requires !loading
      modifies this`blocks
      ensures blocks == BlockList.UpdateBlock(old(blocks), id, c)
      ensures BlockList.Consistent(old(blocks))
        && (forall i :: 0 <= i < |old(blocks)| && old(blocks)[i].id == id ==> Fits(old(blocks)[i].kind, c))
        ==> BlockList.Consistent(blocks)
    {
      if BlockList.Consistent(blocks)
        && forall i :: 0 <= i < |blocks| && blocks[i].id == id ==> Fits(blocks[i].kind, c)
      {
        BlockList.UpdateKeepsConsistent(blocks, id, c);
      }
      blocks := BlockList.UpdateBlock(blocks, id, c);
    }

    /** `deleteBlock`; `confirmed` is the answer to the confirmation dialog. */
    method DeleteBlock(id: BlockId, confirmed: bool)
      requires !loading
      modifies this`blocks
      ensures blocks == BlockList.DeleteBlock(old(blocks), id, confirmed)
      ensures BlockList.Consistent(old(blocks)) ==> BlockList.Consistent(blocks)
    {
      if BlockList.Consistent(blocks) {
        BlockList.DeleteKeepsConsistent(blocks, id, confirmed);
      }
      blocks := BlockList.DeleteBlock(blocks, id, confirmed);
    }

    /** `duplicateBlock` applied to the session's block list. */
    method DuplicateBlock(id: BlockId, freshId: BlockId)
      requires !loading && !BlockList.HasId(blocks, freshId)
      modifies this`blocks
      ensures !BlockList.HasId(old(blocks), id) ==> blocks == old(blocks)
      ensures BlockList.HasId(old(blocks), id) ==>
        var index := BlockList.FindIndex(old(blocks), id);
        blocks == old(blocks)[..index + 1] + [old(blocks)[index].(id := freshId)] + old(blocks)[index + 1..]
      ensures BlockList.Consistent(old(blocks)) ==> BlockList.Consistent(blocks)
    {
      var before := blocks;
      var r := BlockList.DuplicateBlock(blocks, id, freshId);
      if BlockList.HasId(before, id) {
        var index := BlockList.FindIndex(before, id);
        assert r == r[..index + 1] + [r[index + 1]] + r[index + 2..];
      }
      blocks := r;
    }

    /** `handleDragEnd`: the dragged block is dropped onto another one. */
    method HandleDragEnd(activeId: BlockId, overId: BlockId)
      requires !loading && BlockList.HasId(blocks, activeId) && BlockList.HasId(blocks, overId)
      modifies this`blocks
      ensures blocks == BlockList.HandleDragEnd(old(blocks), activeId, overId)
      ensures BlockList.Consistent(old(blocks)) ==> BlockList.Consistent(blocks)
    {
      if BlockList.Consistent(blocks) {
        BlockList.DragKeepsConsistent(blocks, activeId, overId);
      }
      blocks := BlockList.HandleDragEnd(blocks, activeId, overId);
    }

    /**
     * The save button: `handleSubmit(onSubmit)`. The form is validated first
     * and nothing happens if it fails. Otherwise every pending image upload is
     * resolved; if any fails, the save stops. The resolved blocks are written
     * with the form values, by a create for a new project and by an update
     * for an existing one; only a successful update replaces the session's
     * blocks with the resolved ones. `storeAccepts` says whether the store
     * call succeeds.
     */
    method Submit(upload: FileHandle -> Option<string>, storeAccepts: bool) returns (outcome: SaveOutcome)
      requires !loading && !saving
      modifies this`blocks, this`saving
      ensures !saving
      ensures outcome.Updated? ==>
        && BlockList.ResolveUploads(old(blocks), upload).Some?
        && blocks == BlockList.ResolveUploads(old(blocks), upload).value
        && outcome.record.contentBlocks == WriteBlocks(blocks)
      ensures !outcome.Updated? ==> blocks == old(blocks)
      ensures outcome.Rejected? <==> Validate(form.title, form.slug, form.excerpt, form.status).Failure?
      ensures outcome.Rejected? ==> outcome.errors == Validate(form.title, form.slug, form.excerpt, form.status).error
      ensures outcome.UploadFailed? <==>
        Validate(form.title, form.slug, form.excerpt, form.status).Success?
        && BlockList.ResolveUploads(old(blocks), upload).None?
      ensures outcome.Created? || outcome.Updated? || outcome.StoreFailed? ==>
        var rec := if outcome.StoreFailed? then outcome.attempted else outcome.record;
        && BlockList.ResolveUploads(old(blocks), upload).Some?
        && rec.contentBlocks == WriteBlocks(BlockList.ResolveUploads(old(blocks), upload).value)
        && BlockList.NoPendingUploads(BlockList.ResolveUploads(old(blocks), upload).value)
        && Success(rec.form) == Validate(form.title, form.slug, form.excerpt, form.status)
      ensures outcome.Created? ==> IsNew() && storeAccepts
      ensures outcome.Updated? ==> HasRecord() && storeAccepts
      ensures outcome.StoreFailed? ==> !storeAccepts && (IsNew() || HasRecord())
      ensures outcome.NoTarget? ==> !IsNew() && !HasRecord()
      ensures BlockList.Consistent(old(blocks)) ==> BlockList.Consistent(blocks)
    {
      var validated := Validate(form.title, form.slug, form.excerpt, form.status);
      if validated.Failure? {
        return Rejected(validated.error);
      }
      saving := true;
      var processed := BlockList.ResolveUploads(blocks, upload);
      if processed.None? {
        outcome := UploadFailed;
      } else {
        var rec := ProjectRecord(validated.value, WriteBlocks(processed.value));
        if IsNew() {
          outcome := if storeAccepts then Created(rec) else StoreFailed(rec);
        } else if HasRecord() {
          if storeAccepts {
            if BlockList.Consistent(blocks) {
              BlockList.ResolveKeepsConsistent(blocks, upload);
            }
            blocks := processed.value;
            outcome := Updated(rec);
          } else {
            outcome := StoreFailed(rec);
          }
        } else {
          outcome := NoTarget;
        }
      }
      saving := false;
    }
  }

  /** A project whose record has no `content_blocks` opens with an empty block list. */
  method LoadWithoutBlocks(id: string, rec: StoredProject) returns (s: Session)
    requires id != "" && id != "new" && rec.contentBlocks.None?
    ensures s.blocks == [] && !s.loading
  {
    s := new Session(Some(id));
    s.FetchProject(Fetched(rec));
  }

  /**
   * A file picked in an image block is uploaded by the next save: the block's
   * `url` becomes the uploaded file's URL, the file is dropped, and its alt
   * text and caption are kept.
   */
  lemma PickedFileIsUploaded(
    s: seq<Block>, i: nat, f: FileHandle, createObjectUrl: FileHandle -> string,
    upload: FileHandle -> Option<string>, picked: ImagePayload, saved: seq<Block>)
    requires i < |s| && s[i].kind == Known(Image) && s[i].content.ImageContent?
    requires HandleFileChange(s[i].content.image, Some(f), createObjectUrl) == Some(picked)
    requires BlockList.ResolveUploads(BlockList.UpdateBlock(s, s[i].id, ImageContent(picked)), upload) == Some(saved)
    ensures upload(f).Some? && i < |saved|
    ensures saved[i] == Block(s[i].id, Known(Image),
      ImageContent(ImagePayload(upload(f).value, s[i].content.image.alt, s[i].content.image.caption, Absent)))
  {
    var edited := BlockList.UpdateBlock(s, s[i].id, ImageContent(picked));
    assert edited[i] == Block(s[i].id, Known(Image), ImageContent(picked));
    assert !BlockList.UploadFails(edited[i], upload);
    assert Some(saved[i]) == BlockList.ResolveBlock(edited[i], upload);
  }

  /** A cleared image block is not uploaded: it is saved exactly as cleared, with an empty `url` and a `null` file. */
  lemma ClearedImageIsKept(
    s: seq<Block>, i: nat, upload: FileHandle -> Option<string>, saved: seq<Block>)
    requires i < |s| && s[i].content.ImageContent?
    requires BlockList.ResolveUploads(
      BlockList.UpdateBlock(s, s[i].id, ImageContent(HandleClear(s[i].content.image))), upload) == Some(saved)
    ensures i < |saved|
    ensures saved[i] == s[i].(content := ImageContent(HandleClear(s[i].content.image)))
  {
    var edited := BlockList.UpdateBlock(s, s[i].id, ImageContent(HandleClear(s[i].content.image)));
    assert !BlockList.NeedsUpload(edited[i]);
    assert Some(saved[i]) == BlockList.ResolveBlock(edited[i], upload);
  }

  /**
   * A stored block whose tag is none of the five is loaded, passes through
   * the pre-save resolution untouched, and is written back exactly as it was
   * stored.
   */
  lemma {:induction false} UnknownBlockSurvivesSave(
    ss: seq<StoredBlock>, i: nat, upload: FileHandle -> Option<string>, saved: seq<Block>)
    requires i < |ss| && ss[i].typeName !in TAG_NAMES
    requires BlockList.ResolveUploads(ReadBlocks(ss), upload) == Some(saved)
    ensures i < |saved| && saved[i].kind == Unknown(ss[i].typeName)
    ensures WriteBlock(saved[i]) == ss[i]
  {
    ReadBlocksAt(ss, i);
    var loaded := ReadBlock(ss[i]);
    assert loaded.kind == Unknown(ss[i].typeName);
    assert BlockList.ResolveBlock(loaded, upload) == Some(loaded);
  }
}
