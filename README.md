# Block-document editor of the ProjectShowcase admin, in Dafny

This project models the core of the portfolio admin's project editor. A project
is a short front matter (title, slug, optional excerpt, status) and an ordered
list of typed content blocks: `title`, `paragraph`, `image`, `video` and
`embed`. Each block carries an id, its tag and a payload whose shape the tag
chooses. A stored block whose `type` names none of the five is loaded and
saved back unchanged, under an `Unknown` tag with an opaque payload. The editor adds, updates, deletes, duplicates and reorders blocks.
An image block may hold a picked file waiting to be uploaded, and before a save
every such file is uploaded and replaced by its URL.

Modules, one per source file or concern:

- `Wrappers` (`wrappers.dfy`): `Option` and `Result`.
- `BlockTypes` (`block_types.dfy`): the block model of `src/types.ts`. `Block` keeps the tag and the payload in separate fields, because the update operation accepts any payload. `WellTyped` says that the two agree. `StoredBlock` is a block as `content_blocks` holds it, with its tag as the `type` string; `ReadBlocks` and `WriteBlocks` convert between the two forms.
- `ImageBlockEditing` (`image_block.dfy`): the payload transformers of `ImageBlock.tsx`. These are picking a file, clearing the image, and editing the alt text and the caption.
- `ProjectForm` (`project_form.dfy`): the validation schema of the front matter.
- `BlockList` (`block_list.dfy`): the list operations, `findIndex`/`find`, `arrayMove`, and the resolution of pending uploads. `Consistent` is the document invariant: ids are unique and every block is well typed. Every operation is proved to keep it; update does so when the new payload fits the block's tag, as every block editor's payload does.
- `EditorSession` (`editor_session.dfy`): the component's state as a class. Its fields are `blocks`, the form fields, `loading` and `saving`. It updates them step by step when a project is fetched and when it is saved.

Calls to the outside are parameters:
- A fetch is passed in as its outcome.
- An upload is a function `FileHandle -> Option<string>`, where `None` means that upload fails.
- The store's answer to a create or update is a boolean.
- `crypto.randomUUID` is a `freshId` argument that must not already be in the list.
- The confirmation dialog is a boolean.
- `URL.createObjectURL` is a function argument.

The model follows the code where the editor's intended design reads differently:
- When `content_blocks` is absent or falsy, the load leaves the block list as it was, instead of setting it to empty. At that point the list is still the initial empty list, so the result is the same.
- When the route's id is neither `"new"` nor a non-empty id, nothing is fetched and `loading` stays true, so the editor never appears and no save can start. The `NoTarget` outcome of a save is therefore unreachable from such a route; it is kept only so that the save step is total.
- Loading does not check the stored blocks' tags. A block whose `type` is none of the five names is kept, in place, under an `Unknown` tag, and a later save writes it back unchanged.
- A failed fetch still ends loading (`finally`), so the editor opens with an empty block list and a blank form. Once a valid title and slug are typed, a save overwrites the stored record, including `content_blocks` with an empty list.

## Model

| member | source | states |
|---|---|---|
| `BlockTypes.ParseTag` | src/types.ts:1-6 | a stored `type` string is a known tag iff it is one of `title`, `paragraph`, `image`, `video`, `embed`; any other string is kept as an unknown tag; either way the tag's stored name is the string read |
| `BlockTypes.TagNameRoundTrip` | src/types.ts:1-6 | every valid tag reads back as itself from its stored name, so distinct tags are stored under distinct names |
| `BlockTypes.ReadBlock` | src/components/admin/ProjectEditor.tsx:76-77 | a loaded block has a valid tag and writes back to exactly the stored block |
| `BlockTypes.WriteBlocks` | src/components/admin/ProjectEditor.tsx:158-161 | the stored list has one entry per block, each the block's stored form, in order |
| `BlockTypes.ReadBlocks` | src/components/admin/ProjectEditor.tsx:76-77 | loading keeps every stored block, in order, with a valid tag, and writing the loaded list back gives exactly the stored list |
| `BlockTypes.ReadBlocksAt` | src/components/admin/ProjectEditor.tsx:76-77 | the block loaded at each position is the stored block at that position, read on its own |
| `BlockTypes.StoreThenLoad` | src/components/admin/ProjectEditor.tsx:76-77 | a list of well-typed blocks that is stored and loaded again is the same list |
| `BlockTypes.ParseLevel` | src/types.ts:8-14 | a title's level is exactly one of `h1`, `h2`, `h3` |
| `BlockTypes.ParseProvider` | src/types.ts:33-39 | a video provider is exactly one of `youtube`, `vimeo`, `other` |
| `ImageBlockEditing.HandleFileChange` | src/components/admin/blocks/ImageBlock.tsx:16-22 | emits nothing when no file is selected; otherwise `url` is the preview URL, `file` the picked file, and alt and caption are unchanged |
| `ImageBlockEditing.HandleClear` | src/components/admin/blocks/ImageBlock.tsx:24-26 | `url` becomes empty and `file` null, and alt and caption are kept |
| `ImageBlockEditing.EditAlt` | src/components/admin/blocks/ImageBlock.tsx:72 | sets `alt`; url, caption and file are unchanged |
| `ImageBlockEditing.EditCaption` | src/components/admin/blocks/ImageBlock.tsx:80 | sets `caption`; url, alt and file are unchanged |
| `ImageBlockEditing.SelectThenClear` | src/components/admin/blocks/ImageBlock.tsx:16-26 | picking a file and then clearing gives the same payload as clearing at once, so no pending file survives |
| `ProjectForm.ParseStatus` | src/components/admin/ProjectEditor.tsx:38 | the status is exactly one of `draft`, `published`, `hidden`, `scheduled` |
| `ProjectForm.SlugPatternCharacterised` | src/components/admin/ProjectEditor.tsx:36 | the pattern `^[a-z0-9-]+$` accepts exactly the non-empty strings made of `a-z`, `0-9` and `-` |
| `ProjectForm.ValidSlugIff` | src/components/admin/ProjectEditor.tsx:36 | a slug is valid iff it has at least 3 characters, all from `a-z`, `0-9`, `-` |
| `ProjectForm.Errors` | src/components/admin/ProjectEditor.tsx:34-39 | each failed check is reported (title under 3, slug under 3, slug off-pattern, unknown status) and only those |
| `ProjectForm.Validate` | src/components/admin/ProjectEditor.tsx:34-39 | the form passes iff title, slug and status all pass; success carries the same fields with the parsed status, failure the non-empty error list |
| `BlockList.FindIndex` | src/components/admin/ProjectEditor.tsx:129 | -1 iff no block has the id; otherwise the first position holding it |
| `BlockList.Find` | src/components/admin/ProjectEditor.tsx:126 | none iff no block has the id; otherwise the block at `FindIndex` |
| `BlockList.DefaultContent` | src/components/admin/ProjectEditor.tsx:106-110 | the default payload of each tag has that tag's shape |
| `BlockList.AddBlock` | src/components/admin/ProjectEditor.tsx:102-113 | one block longer, the old blocks an unchanged prefix, the new last block has the fresh id, the tag and its default payload |
| `BlockList.AddKeepsConsistent` | src/components/admin/ProjectEditor.tsx:102-113 | with an unused fresh id, adding keeps ids unique and blocks well typed |
| `BlockList.AddTitleToEmpty` | src/components/admin/ProjectEditor.tsx:106 | adding a title to an empty document gives one block `{text:"", level:"h2"}` |
| `BlockList.UpdateBlock` | src/components/admin/ProjectEditor.tsx:115-117 | same length, ids and tags at every position; exactly the blocks with the id get the new payload |
| `BlockList.UpdateAbsentIsIdentity` | src/components/admin/ProjectEditor.tsx:115-117 | updating an absent id leaves the list equal to the original |
| `BlockList.UpdateIdempotent` | src/components/admin/ProjectEditor.tsx:115-117 | updating twice with the same payload equals updating once |
| `BlockList.UpdateKeepsConsistent` | src/components/admin/ProjectEditor.tsx:115-117 | a payload whose shape matches the target's tag keeps the document invariant |
| `BlockList.RemoveId` | src/components/admin/ProjectEditor.tsx:121 | no block with the id is left; length drops by the number of such blocks; the rest keep their relative order |
| `BlockList.RemoveIdSubMultiset` | src/components/admin/ProjectEditor.tsx:121 | the filter adds no block |
| `BlockList.RemoveIdKeepsOthers` | src/components/admin/ProjectEditor.tsx:121 | every block with another id is kept |
| `BlockList.DeleteBlock` | src/components/admin/ProjectEditor.tsx:119-123 | without confirmation the list is unchanged; with it the id is gone, the rest keep their order, and nothing is added |
| `BlockList.RemoveAbsentIsIdentity` | src/components/admin/ProjectEditor.tsx:121 | filtering out an id that no block has keeps the list as it is |
| `BlockList.DeleteAbsentIsIdentity` | src/components/admin/ProjectEditor.tsx:119-123 | a confirmed delete of an absent id leaves the list equal to the original |
| `BlockList.DeleteRemovesOne` | src/components/admin/ProjectEditor.tsx:119-123 | with unique ids, a confirmed delete of a present id removes exactly one block |
| `BlockList.DeleteKeepsConsistent` | src/components/admin/ProjectEditor.tsx:119-123 | deleting keeps the document invariant |
| `BlockList.DuplicateBlock` | src/components/admin/ProjectEditor.tsx:125-134 | an absent id leaves the list unchanged; otherwise one longer, with the prefix up to the original unchanged, a copy with the fresh id right after it, and the rest shifted by one; keeps the invariant |
| `BlockList.ArrayMove` | src/components/admin/ProjectEditor.tsx:97 | same length and multiset; the moved element lands at the target index; every other element shifts by at most one place |
| `BlockList.ArrayMoveInverse` | src/components/admin/ProjectEditor.tsx:97 | moving back from the target index to the source index restores the list |
| `BlockList.HandleDragEnd` | src/components/admin/ProjectEditor.tsx:90-100 | dropping a block on itself changes nothing; otherwise the dragged block alone moves to the target's position: a permutation in which position `i` holds the old block at `MovedFrom(from, to, i)`, so every other block keeps its relative order |
| `BlockList.DragKeepsConsistent` | src/components/admin/ProjectEditor.tsx:90-100 | reordering keeps the document invariant |
| `BlockList.DragBack` | src/components/admin/ProjectEditor.tsx:90-100 | dropping the moved block onto the block now at its old position restores the original list |
| `BlockList.DragLastOntoFirst` | src/components/admin/ProjectEditor.tsx:90-100 | with distinct ids, both blocks are present, and `[A,B,C]` with C dropped on A gives `[C,A,B]` |
| `BlockList.ResolveBlock` | src/components/admin/ProjectEditor.tsx:141-155 | fails iff the block is an image with a file whose upload fails; an image with a file gets the uploaded URL and no file, alt and caption kept; any other block passes through |
| `BlockList.ResolveUploads` | src/components/admin/ProjectEditor.tsx:140-156 | fails iff some upload fails; otherwise the same length, each block resolved in place, and no pending file left |
| `BlockList.ResolveKeepsStructure` | src/components/admin/ProjectEditor.tsx:140-156 | resolution keeps ids, tags and order; blocks without a pending file are untouched; uploaded images keep alt and caption |
| `BlockList.ResolveNothingPending` | src/components/admin/ProjectEditor.tsx:141 | a list without pending files resolves to itself |
| `BlockList.ResolveIdempotent` | src/components/admin/ProjectEditor.tsx:140-156 | resolving an already resolved list changes nothing |
| `BlockList.ResolveKeepsConsistent` | src/components/admin/ProjectEditor.tsx:140-156 | resolution keeps the document invariant |
| `EditorSession.Session.constructor` | src/components/admin/ProjectEditor.tsx:47-58 | a session starts with no blocks, status `draft`, not saving, and loading unless the project is new |
| `EditorSession.Session.FetchProject` | src/components/admin/ProjectEditor.tsx:67-88 | runs once, while the editor is still loading, and only for an existing record: the form takes the record's fields; blocks are `ReadBlocks` of `content_blocks` unless it is absent; a failed fetch changes neither blocks nor form; loading ends either way |
| `EditorSession.Session.EditForm` | src/components/admin/ProjectEditor.tsx:219-229 | the form holds what was typed |
| `EditorSession.Session.AddBlock` | src/components/admin/ProjectEditor.tsx:102-113 | the session's blocks become `AddBlock` of the old ones; the invariant is kept |
| `EditorSession.Session.UpdateBlock` | src/components/admin/ProjectEditor.tsx:115-117 | the session's blocks become `UpdateBlock` of the old ones; a matching payload keeps the invariant |
| `EditorSession.Session.DeleteBlock` | src/components/admin/ProjectEditor.tsx:119-123 | the session's blocks become `DeleteBlock` of the old ones; the invariant is kept |
| `EditorSession.Session.DuplicateBlock` | src/components/admin/ProjectEditor.tsx:125-134 | the copy is spliced in right after the original, or nothing changes for an absent id; the invariant is kept |
| `EditorSession.Session.HandleDragEnd` | src/components/admin/ProjectEditor.tsx:90-100 | the session's blocks become `HandleDragEnd` of the old ones; the invariant is kept |
| `EditorSession.Session.Submit` | src/components/admin/ProjectEditor.tsx:136-177 | an invalid form or a failed upload submits nothing and changes no blocks; a written record holds the validated form and the stored form of the fully resolved blocks; a store can fail only for a new project or an existing record; only a successful update replaces the blocks; saving ends false |
| `EditorSession.LoadWithoutBlocks` | src/components/admin/ProjectEditor.tsx:76-78 | opening a record without `content_blocks` gives an empty block list |
| `EditorSession.PickedFileIsUploaded` | src/components/admin/ProjectEditor.tsx:140-156 | after a file is picked in an image block, the next successful save stores the uploaded URL with no file and keeps alt and caption |
| `EditorSession.UnknownBlockSurvivesSave` | src/components/admin/ProjectEditor.tsx:76-77 | a loaded block with an unknown `type` keeps its position and its tag through a successful save's resolution and is written back exactly as it was stored |
| `EditorSession.ClearedImageIsKept` | src/components/admin/blocks/ImageBlock.tsx:24-26 | a cleared image is not uploaded and is saved exactly as cleared |

## Left out

- The backend SDK calls are not modelled: `getOne`, `create` and `update` on the project collection, the media-library `create`, `files.getUrl` and the `FormData` building. They are parameters, as described above.
- The JSON serialisation of `content_blocks` is done by the backend SDK and is not modelled. Only a stored block's `type` is read as a string; its payload is stored and loaded as a value, so a known tag stored with a payload of another shape is loaded as it is and is not well typed.
- The uploads in a save run concurrently, under `Promise.all`. They are modelled as a sequential map that fails if any upload fails. Media records created by the uploads that succeeded before a failure stay behind in the store, and the model does not track them.
- The model treats a save as one atomic step. In the component, the blocks can still be edited while a save is in flight. A successful update then replaces them with the list resolved at submit time, so those edits are lost. The model does not represent this.
- Alerts, console logging and the navigation after a create are left out. They are UI side effects; the navigation shows up only as the `Created` outcome.
- The following are UI and not modelled: rendering, the `renderBlock` dispatch with its "unknown block type" placeholder, `BlockWrapper.tsx`, and the drag sensors.
- The paragraph editor (`ParagraphBlock.tsx`) wraps an external rich-text editor, so its inside cannot be modelled. Its output reaches the list through `UpdateBlock`, like every other block editor's.
- `TitleBlock.tsx`, `VideoBlock.tsx` and `EmbedBlock.tsx` only merge a single field into a whole payload. `UpdateBlock`, which takes any whole payload, covers them.
- `LoginForm.tsx`, `Dashboard.tsx`, `src/lib/pocketbase.ts`, the migrations and `astro.config.mjs` are not part of this model. They hold authentication, listing, client set-up, schema and build configuration.
- `arrayMove` comes from a library whose source is not part of this model. It is modelled by its documented behaviour: remove at the old index, insert at the new one.
- BlockList.HandleDragEnd: requires both ids to be present. The code does not guard a `findIndex` result of -1 or a drop outside any block (`over` null).
- String lengths are counted in Unicode characters, not UTF-16 code units. So the title's "at least 3 characters" check can differ for text outside the Basic Multilingual Plane.
- The `disabled` save button and the hidden editor while loading are not modelled as UI. The session methods require `!saving` and `!loading` instead.
