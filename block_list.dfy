/**
 * The editor's operations on the ordered block list
 * (src/components/admin/ProjectEditor.tsx): add, update, delete, duplicate,
 * reorder by drag and drop, and the resolution of pending image uploads that
 * runs before a save.
 *
 * Every operation builds a new list from the old one. Identifiers that the
 * browser generates (`crypto.randomUUID`) are passed in as `freshId`, the
 * confirmation dialog as a boolean, and the upload as a function that either
 * yields the stored file's URL or fails.
 */
module BlockList {
  import opened Wrappers
  import opened BlockTypes

  // ---------------------------------------------------------------------------
  // Identity and invariants of a block list

  /** Some block of `s` carries `id`. */
  predicate HasId(s: seq<Block>, id: BlockId)
  {
    exists i :: 0 <= i < |s| && s[i].id == id
  }

  /** No two blocks of `s` share an id. */
  predicate UniqueIds(s: seq<Block>)
  {
    forall i, j :: 0 <= i < j < |s| ==> s[i].id != s[j].id
  }

  /** Every block's payload has the shape its tag declares. */
  predicate AllWellTyped(s: seq<Block>)
  {
    forall i :: 0 <= i < |s| ==> WellTyped(s[i])
  }

  /** The document invariant: ids are unique and every block is well typed. */
  predicate Consistent(s: seq<Block>)
  {
    UniqueIds(s) && AllWellTyped(s)
  }

  /** The number of blocks of `s` that carry `id`. */
  function CountId(s: seq<Block>, id: BlockId): (n: nat)
    ensures n <= |s|
    ensures n == 0 <==> !HasId(s, id)
  {
    if s == [] then 0
    else (if s[0].id == id then 1 else 0) + CountId(s[1..], id)
  }

  /** In a list with unique ids, a present id occurs exactly once. */
  lemma {:induction false} CountIdUnique(s: seq<Block>, id: BlockId)
    requires UniqueIds(s) && HasId(s, id)
    ensures CountId(s, id) == 1
  {
    if s[0].id == id {
      assert !HasId(s[1..], id) by {
        forall k | 0 <= k < |s[1..]| ensures s[1..][k].id != id {
          assert s[1..][k] == s[k + 1];
        }
      }
    } else {
      var i :| 0 <= i < |s| && s[i].id == id;
      assert s[1..][i - 1].id == id;
      CountIdUnique(s[1..], id);
    }
  }

  /** `findIndex`: the position of the first block with `id`, or -1. */
  function FindIndex(s: seq<Block>, id: BlockId): (r: int)
    ensures -1 <= r < |s|
    ensures r == -1 <==> !HasId(s, id)
    ensures r >= 0 ==> s[r].id == id && forall j :: 0 <= j < r ==> s[j].id != id
  {
    if s == [] then -1
    else if s[0].id == id then 0
    else
      var k := FindIndex(s[1..], id);
      if k == -1 then -1 else k + 1
  }

  /** `find`: the first block with `id`, if any. */
  function Find(s: seq<Block>, id: BlockId): (r: Option<Block>)
    ensures r.None? <==> !HasId(s, id)
    ensures r.Some? ==> r.value == s[FindIndex(s, id)]
  {
    var k := FindIndex(s, id);
    if k == -1 then None else Some(s[k])
  }

  /** In a list with unique ids, the block found for an id is the one at any position carrying it. */
  lemma FindIndexUnique(s: seq<Block>, id: BlockId, i: nat)
    requires UniqueIds(s) && i < |s| && s[i].id == id
    ensures FindIndex(s, id) == i
  {
  }

  // ---------------------------------------------------------------------------
  // addBlock

  /** The payload a new block of type `t` starts with. */
  function DefaultContent(t: BlockType): (c: Content)
    ensures Fits(Known(t), c)
  {
    match t
    case Title => TitleContent("", H2)
    case Paragraph => ParagraphContent("<p>Start writing...</p>")
    case Image => ImageContent(ImagePayload("", None, None, Absent))
    case Video => VideoContent("", Some(YouTube))
    case Embed => EmbedContent("")
  }

  /** `addBlock`: appends a block of type `t` with its default payload. */
  function AddBlock(s: seq<Block>, t: BlockType, freshId: BlockId): (r: seq<Block>)
    ensures |r| == |s| + 1
    ensures r[..|s|] == s
    ensures r[|s|].id == freshId && r[|s|].kind == Known(t) && r[|s|].content == DefaultContent(t)
    ensures WellTyped(r[|s|])
  {
    s + [Block(freshId, Known(t), DefaultContent(t))]
  }

  /** Adding a block with an id not yet in use keeps the document invariant. */
  lemma AddKeepsConsistent(s: seq<Block>, t: BlockType, freshId: BlockId)
    requires Consistent(s) && !HasId(s, freshId)
    ensures Consistent(AddBlock(s, t, freshId))
  {
    var r := AddBlock(s, t, freshId);
    forall i | 0 <= i < |s| ensures r[i] == s[i] {
      assert r[..|s|][i] == s[i];
    }
  }

  /** Adding a title block to an empty document gives one untitled level-two heading. */
  lemma AddTitleToEmpty(freshId: BlockId)
    ensures AddBlock([], Title, freshId) == [Block(freshId, Known(Title), TitleContent("", H2))]
  {
  }

  // ---------------------------------------------------------------------------
  // updateBlock

  /** `updateBlock`: every block carrying `id` gets the payload `c`; nothing else changes. */
  function UpdateBlock(s: seq<Block>, id: BlockId, c: Content): (r: seq<Block>)
    ensures |r| == |s|
    ensures forall i :: 0 <= i < |s| ==>
      && r[i].id == s[i].id
      && r[i].kind == s[i].kind
      && r[i].content == (if s[i].id == id then c else s[i].content)
  {
    if s == [] then []
    else [if s[0].id == id then s[0].(content := c) else s[0]] + UpdateBlock(s[1..], id, c)
  }

  /** Updating an id that no block carries leaves the list as it was. */
  lemma UpdateAbsentIsIdentity(s: seq<Block>, id: BlockId, c: Content)
    requires !HasId(s, id)
    ensures UpdateBlock(s, id, c) == s
  {
    var r := UpdateBlock(s, id, c);
    assert forall i :: 0 <= i < |s| ==> r[i] == s[i];
  }

  /** Updating twice with the same payload is the same as updating once. */
  lemma UpdateIdempotent(s: seq<Block>, id: BlockId, c: Content)
    ensures UpdateBlock(UpdateBlock(s, id, c), id, c) == UpdateBlock(s, id, c)
  {
    var r := UpdateBlock(s, id, c);
    var rr := UpdateBlock(r, id, c);
    assert forall i :: 0 <= i < |s| ==> rr[i] == r[i];
  }

  /** A payload of the matching shape keeps the document invariant. */
  lemma UpdateKeepsConsistent(s: seq<Block>, id: BlockId, c: Content)
    requires Consistent(s)
    requires forall i :: 0 <= i < |s| && s[i].id == id ==> Fits(s[i].kind, c)
    ensures Consistent(UpdateBlock(s, id, c))
  {
    var r := UpdateBlock(s, id, c);
    assert forall i :: 0 <= i < |s| ==> WellTyped(r[i]);
  }

  // ---------------------------------------------------------------------------
  // deleteBlock

  /** `xs` is `ys` with some elements dropped, the rest in their original order. */
  predicate IsSubsequence<T(==)>(xs: seq<T>, ys: seq<T>)
    decreases |ys|
  {
    if xs == [] then true
    else if ys == [] then false
    else if xs[0] == ys[0] then IsSubsequence(xs[1..], ys[1..])
    else IsSubsequence(xs, ys[1..])
  }

  /** The filter `b.id !== id`. */
  function RemoveId(s: seq<Block>, id: BlockId): (r: seq<Block>)
    ensures !HasId(r, id)
    ensures |r| == |s| - CountId(s, id)
    ensures IsSubsequence(r, s)
  {
    if s == [] then []
    else if s[0].id == id then RemoveId(s[1..], id)
    else
      var rest := RemoveId(s[1..], id);
      assert ([s[0]] + rest)[1..] == rest;
      [s[0]] + rest
  }

  /** The filter adds nothing: its result is a sub-multiset of the input. */
  lemma {:induction false} RemoveIdSubMultiset(s: seq<Block>, id: BlockId)
    ensures multiset(RemoveId(s, id)) <= multiset(s)
  {
    if s != [] {
      var rest := RemoveId(s[1..], id);
      var ms, mr := multiset(s[1..]), multiset(rest);
      RemoveIdSubMultiset(s[1..], id);
      assert s == [s[0]] + s[1..];
      assert multiset(s) == multiset{s[0]} + ms;
      if s[0].id == id {
        assert RemoveId(s, id) == rest;
      } else {
        assert RemoveId(s, id) == [s[0]] + rest;
        assert multiset(RemoveId(s, id)) == multiset{s[0]} + mr;
      }
    }
  }

  /** The filter keeps every block whose id differs from `id`. */
  lemma {:induction false} RemoveIdKeepsOthers(s: seq<Block>, id: BlockId)
    ensures forall i :: 0 <= i < |s| && s[i].id != id ==> s[i] in RemoveId(s, id)
  {
    if s != [] {
      var rest := RemoveId(s[1..], id);
      RemoveIdKeepsOthers(s[1..], id);
      forall i | 1 <= i < |s| && s[i].id != id ensures s[i] in RemoveId(s, id) {
        assert s[i] == s[1..][i - 1];
        assert s[i] in rest;
      }
    }
  }

  /** `deleteBlock`: removes the blocks with `id`, but only if the user confirms. */
  function DeleteBlock(s: seq<Block>, id: BlockId, confirmed: bool): (r: seq<Block>)
    ensures !confirmed ==> r == s
    ensures confirmed ==> !HasId(r, id) && IsSubsequence(r, s)
    ensures confirmed ==> forall i :: 0 <= i < |s| && s[i].id != id ==> s[i] in r
    ensures confirmed ==> multiset(r) <= multiset(s)
    ensures |r| == if confirmed then |s| - CountId(s, id) else |s|
  {
    if confirmed then
      RemoveIdSubMultiset(s, id);
      RemoveIdKeepsOthers(s, id);
      RemoveId(s, id)
    else s
  }

  /** Deleting an id that no block has leaves the list as it was. */
  lemma {:induction false} DeleteAbsentIsIdentity(s: seq<Block>, id: BlockId)
    requires !HasId(s, id)
    ensures DeleteBlock(s, id, true) == s
  {
    RemoveAbsentIsIdentity(s, id);
  }

  /** Filtering out an id that no block has keeps every block. */
  lemma {:induction false} RemoveAbsentIsIdentity(s: seq<Block>, id: BlockId)
    requires !HasId(s, id)
    ensures RemoveId(s, id) == s
  {
    if s != [] {
      assert !HasId(s[1..], id) by {
        forall i | 0 <= i < |s[1..]| ensures s[1..][i].id != id {
          assert s[1..][i] == s[i + 1];
        }
      }
      RemoveAbsentIsIdentity(s[1..], id);
    }
  }

  /** Every element of a subsequence is an element of the whole. */
  lemma {:induction false} SubsequenceMembers<T>(xs: seq<T>, ys: seq<T>)
    requires IsSubsequence(xs, ys)
    ensures forall x :: x in xs ==> x in ys
    decreases |ys|
  {
    if xs != [] && ys != [] {
      if xs[0] == ys[0] {
        SubsequenceMembers(xs[1..], ys[1..]);
        assert xs == [xs[0]] + xs[1..];
      } else {
        SubsequenceMembers(xs, ys[1..]);
      }
    }
  }

  /** Deleting from a document with unique ids removes exactly one block when the id is present. */
  lemma DeleteRemovesOne(s: seq<Block>, id: BlockId)
    requires UniqueIds(s) && HasId(s, id)
    ensures |DeleteBlock(s, id, true)| == |s| - 1
  {
    CountIdUnique(s, id);
  }

  /** A subsequence of a consistent list is consistent. */
  lemma {:induction false} SubsequenceKeepsConsistent(xs: seq<Block>, ys: seq<Block>)
    requires IsSubsequence(xs, ys) && Consistent(ys)
    ensures Consistent(xs)
    decreases |ys|
  {
    if xs != [] && ys != [] {
      assert Consistent(ys[1..]) by {
        forall i | 0 <= i < |ys[1..]| ensures ys[1..][i] == ys[i + 1] { }
      }
      if xs[0] == ys[0] {
        SubsequenceKeepsConsistent(xs[1..], ys[1..]);
        SubsequenceMembers(xs[1..], ys[1..]);
        forall j | 0 < j < |xs| ensures xs[0].id != xs[j].id {
          assert xs[j] == xs[1..][j - 1];
          assert xs[j] in ys[1..];
          var k :| 0 <= k < |ys[1..]| && ys[1..][k] == xs[j];
          assert ys[k + 1] == xs[j];
        }
        assert WellTyped(xs[0]) by { assert WellTyped(ys[0]); }
        forall i, j | 0 <= i < j < |xs| ensures xs[i].id != xs[j].id {
          if i > 0 {
            assert xs[i] == xs[1..][i - 1] && xs[j] == xs[1..][j - 1];
          }
        }
        forall i | 0 <= i < |xs| ensures WellTyped(xs[i]) {
          if i > 0 {
            assert xs[i] == xs[1..][i - 1];
          }
        }
      } else {
        SubsequenceKeepsConsistent(xs, ys[1..]);
      }
    }
  }

  /** Deleting keeps the document invariant. */
  lemma DeleteKeepsConsistent(s: seq<Block>, id: BlockId, confirmed: bool)
    requires Consistent(s)
    ensures Consistent(DeleteBlock(s, id, confirmed))
  {
    if confirmed {
      SubsequenceKeepsConsistent(DeleteBlock(s, id, confirmed), s);
    }
  }

  // ---------------------------------------------------------------------------
  // duplicateBlock

  /**
   * `duplicateBlock`: copies the first block carrying `id`, gives the copy
   * the id `freshId`, and splices it into a copy of the list right after the
   * original. An absent id leaves the list unchanged.
   */
  method DuplicateBlock(blocks: seq<Block>, id: BlockId, freshId: BlockId) returns (r: seq<Block>)
    requires !HasId(blocks, freshId)
    ensures !HasId(blocks, id) ==> r == blocks
    ensures HasId(blocks, id) ==>
      var index := FindIndex(blocks, id);
      && |r| == |blocks| + 1
      && r[..index + 1] == blocks[..index + 1]
      && r[index + 1] == blocks[index].(id := freshId)
      && r[index + 2..] == blocks[index + 1..]
    ensures Consistent(blocks) ==> Consistent(r)
  {
    var blockToDuplicate := Find(blocks, id);
    if blockToDuplicate.Some? {
      var newBlock := blockToDuplicate.value.(id := freshId);
      var index := FindIndex(blocks, id);
      var newBlocks := blocks;
      newBlocks := newBlocks[..index + 1] + [newBlock] + newBlocks[index + 1..];
      r := newBlocks;
      if Consistent(blocks) {
        InsertKeepsConsistent(blocks, index + 1, newBlock);
      }
    } else {
      r := blocks;
    }
  }

  /** Inserting a well-typed block with an unused id keeps the document invariant. */
  lemma InsertKeepsConsistent(s: seq<Block>, k: nat, b: Block)
    requires k <= |s| && Consistent(s) && !HasId(s, b.id) && WellTyped(b)
    ensures Consistent(s[..k] + [b] + s[k..])
  {
    var r := s[..k] + [b] + s[k..];
    assert forall i :: 0 <= i < |r| ==> r[i] == if i < k then s[i] else if i == k then b else s[i - 1];
  }

  // ---------------------------------------------------------------------------
  // handleDragEnd and arrayMove

  /** The position in the input of the element that `ArrayMove(s, from, to)` puts at `i`. */
  function MovedFrom(from: nat, to: nat, i: nat): nat
  {
    if i == to then from
    else if from < to && from <= i < to then i + 1
    else if to < from && to < i <= from then i - 1
    else i
  }

  /**
   * `arrayMove`: takes the element at `from` out and reinserts it at `to`;
   * the elements in between shift by one place towards `from`.
   */
  function ArrayMove<T>(s: seq<T>, from: nat, to: nat): (r: seq<T>)
    requires from < |s| && to < |s|
    ensures |r| == |s|
    ensures multiset(r) == multiset(s)
    ensures r[to] == s[from]
    ensures forall i :: 0 <= i < |s| ==> MovedFrom(from, to, i) < |s| && r[i] == s[MovedFrom(from, to, i)]
  {
    var rest := s[..from] + s[from + 1..];
    var r := rest[..to] + [s[from]] + rest[to..];
    ArrayMovePositions(s, from, to, rest, r);
    ArrayMovePermutes(s, from, to, rest, r);
    r
  }

  /** Where each element of the result of `ArrayMove` comes from. */
  lemma ArrayMovePositions<T>(s: seq<T>, from: nat, to: nat, rest: seq<T>, r: seq<T>)
    requires from < |s| && to < |s|
    requires rest == s[..from] + s[from + 1..] && r == rest[..to] + [s[from]] + rest[to..]
    ensures |r| == |s|
    ensures forall i :: 0 <= i < |s| ==> MovedFrom(from, to, i) < |s| && r[i] == s[MovedFrom(from, to, i)]
  {
    assert forall k :: 0 <= k < |rest| ==> rest[k] == if k < from then s[k] else s[k + 1];
    assert forall i :: 0 <= i < |r| ==> r[i] == if i < to then rest[i] else if i == to then s[from] else rest[i - 1];
  }

  /** `ArrayMove` only rearranges: it keeps the multiset of elements. */
  lemma ArrayMovePermutes<T>(s: seq<T>, from: nat, to: nat, rest: seq<T>, r: seq<T>)
    requires from < |s| && to < |s|
    requires rest == s[..from] + s[from + 1..] && r == rest[..to] + [s[from]] + rest[to..]
    ensures multiset(r) == multiset(s)
  {
    assert s == s[..from] + [s[from]] + s[from + 1..];
    assert multiset(s) == multiset(s[..from]) + multiset{s[from]} + multiset(s[from + 1..]);
    assert multiset(rest) == multiset(s[..from]) + multiset(s[from + 1..]);
    assert rest == rest[..to] + rest[to..];
    assert multiset(rest) == multiset(rest[..to]) + multiset(rest[to..]);
    assert multiset(r) == multiset(rest[..to]) + multiset{s[from]} + multiset(rest[to..]);
    assert multiset(r) == multiset(rest) + multiset{s[from]};
  }

  /** Moving from `to` back to `from` undoes the index shift of moving from `from` to `to`. */
  lemma MovedFromInverse(from: nat, to: nat, i: nat)
    ensures MovedFrom(from, to, MovedFrom(to, from, i)) == i
  {
  }

  /** Moving an element back to where it came from restores the list. */
  lemma ArrayMoveInverse<T>(s: seq<T>, from: nat, to: nat)
    requires from < |s| && to < |s|
    ensures ArrayMove(ArrayMove(s, from, to), to, from) == s
  {
    var m := ArrayMove(s, from, to);
    var r := ArrayMove(m, to, from);
    forall i | 0 <= i < |s| ensures r[i] == s[i] {
      var j := MovedFrom(to, from, i);
      assert r[i] == m[j];
      MovedFromInverse(from, to, i);
      assert m[j] == s[MovedFrom(from, to, j)];
    }
  }

  /**
   * `handleDragEnd`: dropping the block `activeId` onto the block `overId`
   * moves the dragged block to the position of the target; dropping a block
   * onto itself does nothing.
   */
  function HandleDragEnd(s: seq<Block>, activeId: BlockId, overId: BlockId): (r: seq<Block>)
    requires HasId(s, activeId) && HasId(s, overId)
    ensures activeId == overId ==> r == s
    ensures |r| == |s| && multiset(r) == multiset(s)
    ensures r[FindIndex(s, overId)] == s[FindIndex(s, activeId)]
    ensures forall i :: 0 <= i < |s| ==>
      MovedFrom(FindIndex(s, activeId), FindIndex(s, overId), i) < |s|
      && r[i] == s[MovedFrom(FindIndex(s, activeId), FindIndex(s, overId), i)]
  {
    if activeId != overId then
      var oldIndex := FindIndex(s, activeId);
      var newIndex := FindIndex(s, overId);
      ArrayMove(s, oldIndex, newIndex)
    else s
  }

  /** Moving one block keeps the ids unique. */
  lemma ArrayMoveKeepsUniqueIds(s: seq<Block>, from: nat, to: nat)
    requires UniqueIds(s) && from < |s| && to < |s|
    ensures UniqueIds(ArrayMove(s, from, to))
  {
    var r := ArrayMove(s, from, to);
    forall i, j | 0 <= i < j < |r| ensures r[i].id != r[j].id {
      assert MovedFrom(from, to, i) != MovedFrom(from, to, j);
    }
  }

  /** Reordering keeps the document invariant: the same blocks, in a new order. */
  lemma DragKeepsConsistent(s: seq<Block>, activeId: BlockId, overId: BlockId)
    requires Consistent(s) && HasId(s, activeId) && HasId(s, overId)
    ensures Consistent(HandleDragEnd(s, activeId, overId))
  {
    if activeId != overId {
      var from, to := FindIndex(s, activeId), FindIndex(s, overId);
      var r := HandleDragEnd(s, activeId, overId);
      ArrayMoveKeepsUniqueIds(s, from, to);
      forall i | 0 <= i < |r| ensures WellTyped(r[i]) {
        assert r[i] == s[MovedFrom(from, to, i)];
      }
    }
  }

  /**
   * Undoing a drag: dropping the moved block onto the block that now stands
   * where it used to be restores the original list.
   */
  lemma DragBack(s: seq<Block>, activeId: BlockId, overId: BlockId)
    requires UniqueIds(s) && HasId(s, activeId) && HasId(s, overId)
    ensures
      var r := HandleDragEnd(s, activeId, overId);
      var back := r[FindIndex(s, activeId)].id;
      HasId(r, activeId) && HasId(r, back) && HandleDragEnd(r, activeId, back) == s
  {
    var from, to := FindIndex(s, activeId), FindIndex(s, overId);
    var r := HandleDragEnd(s, activeId, overId);
    if activeId == overId {
      assert r == s;
      assert r[from].id == activeId;
    } else {
      assert r == ArrayMove(s, from, to);
      ArrayMoveKeepsUniqueIds(s, from, to);
      var back := r[from].id;
      assert r[to].id == activeId;
      FindIndexUnique(r, activeId, to);
      FindIndexUnique(r, back, from);
      assert back != activeId;
      ArrayMoveInverse(s, from, to);
      assert HandleDragEnd(r, activeId, back) == ArrayMove(r, to, from);
    }
  }

  /** Dropping the last of three blocks onto the first moves it to the front. */
  lemma DragLastOntoFirst(a: Block, b: Block, c: Block)
    requires a.id != b.id && b.id != c.id && a.id != c.id
    ensures HasId([a, b, c], c.id) && HasId([a, b, c], a.id)
    ensures HandleDragEnd([a, b, c], c.id, a.id) == [c, a, b]
  {
    var s := [a, b, c];
    assert FindIndex(s, c.id) == 2;
    assert FindIndex(s, a.id) == 0;
    assert s[..2] + s[3..] == [a, b];
    assert HandleDragEnd(s, c.id, a.id) == ArrayMove(s, 2, 0) == [c] + [a, b];
  }

  // ---------------------------------------------------------------------------
  // Pre-save resolution of pending image uploads

  /** An image block holding a selected file: the only blocks uploaded on save. */
  predicate NeedsUpload(b: Block)
  {
    b.kind == Known(Image) && b.content.ImageContent? && b.content.image.file.Selected?
  }

  /** No block of `s` still holds a file to upload. */
  predicate NoPendingUploads(s: seq<Block>)
  {
    forall i :: 0 <= i < |s| ==> !NeedsUpload(s[i])
  }

  /** The upload of this block's file fails. */
  predicate UploadFails(b: Block, upload: FileHandle -> Option<string>)
  {
    NeedsUpload(b) && upload(b.content.image.file.file).None?
  }

  /**
   * One block of the save step: an image with a selected file gets the URL
   * the upload yields and loses the file (set to `undefined`); any other
   * block passes through.
   */
  function ResolveBlock(b: Block, upload: FileHandle -> Option<string>): (r: Option<Block>)
    ensures r.None? <==> UploadFails(b, upload)
    ensures r.Some? && !NeedsUpload(b) ==> r.value == b
    ensures r.Some? && NeedsUpload(b) ==>
      var img := b.content.image;
      && r.value.id == b.id && r.value.kind == b.kind
      && r.value.content == ImageContent(img.(url := upload(img.file.file).value, file := Absent))
    ensures r.Some? ==> !NeedsUpload(r.value) && (WellTyped(b) ==> WellTyped(r.value))
  {
    if NeedsUpload(b) then
      var img := b.content.image;
      match upload(img.file.file)
      case None => None
      case Some(url) => Some(b.(content := ImageContent(img.(url := url, file := Absent))))
    else Some(b)
  }

  /**
   * The `Promise.all` over the blocks before a save: every block is
   * resolved, and the whole step fails if any single upload fails.
   */
  function ResolveUploads(s: seq<Block>, upload: FileHandle -> Option<string>): (r: Option<seq<Block>>)
    ensures r.None? <==> exists i :: 0 <= i < |s| && UploadFails(s[i], upload)
    ensures r.Some? ==>
      && |r.value| == |s|
      && NoPendingUploads(r.value)
      && forall i :: 0 <= i < |s| ==> Some(r.value[i]) == ResolveBlock(s[i], upload)
  {
    if s == [] then Some([])
    else
      match ResolveBlock(s[0], upload)
      case None => None
      case Some(b) =>
        match ResolveUploads(s[1..], upload)
        case None =>
          assert forall i :: 1 <= i < |s| ==> s[i] == s[1..][i - 1];
          None
        case Some(rest) =>
          assert forall i :: 1 <= i < |s| ==> s[i] == s[1..][i - 1];
          Some([b] + rest)
  }

  /** What a successful resolution keeps: order, ids, tags, and every block not waiting for an upload. */
  lemma ResolveKeepsStructure(s: seq<Block>, upload: FileHandle -> Option<string>, i: nat)
    requires ResolveUploads(s, upload).Some? && i < |s|
    ensures
      var r := ResolveUploads(s, upload).value;
      && r[i].id == s[i].id && r[i].kind == s[i].kind
      && (!NeedsUpload(s[i]) ==> r[i] == s[i])
      && (NeedsUpload(s[i]) ==>
            && r[i].content.ImageContent?
            && r[i].content.image.url == upload(s[i].content.image.file.file).value
            && r[i].content.image.file == Absent
            && r[i].content.image.alt == s[i].content.image.alt
            && r[i].content.image.caption == s[i].content.image.caption)
  {
  }

  /** A list with nothing to upload resolves to itself. */
  lemma {:induction false} ResolveNothingPending(s: seq<Block>, upload: FileHandle -> Option<string>)
    requires NoPendingUploads(s)
    ensures ResolveUploads(s, upload) == Some(s)
  {
    if s != [] {
      assert !NeedsUpload(s[0]);
      assert NoPendingUploads(s[1..]) by {
        forall i | 0 <= i < |s[1..]| ensures !NeedsUpload(s[1..][i]) {
          assert s[1..][i] == s[i + 1];
        }
      }
      ResolveNothingPending(s[1..], upload);
      assert [s[0]] + s[1..] == s;
    }
  }

  /** Resolving an already resolved list changes nothing, whatever the upload does. */
  lemma ResolveIdempotent(s: seq<Block>, upload: FileHandle -> Option<string>, upload': FileHandle -> Option<string>)
    requires ResolveUploads(s, upload).Some?
    ensures ResolveUploads(ResolveUploads(s, upload).value, upload') == ResolveUploads(s, upload)
  {
    ResolveNothingPending(ResolveUploads(s, upload).value, upload');
  }

  /** Resolution keeps the document invariant. */
  lemma ResolveKeepsConsistent(s: seq<Block>, upload: FileHandle -> Option<string>)
    requires Consistent(s) && ResolveUploads(s, upload).Some?
    ensures Consistent(ResolveUploads(s, upload).value)
  {
    var r := ResolveUploads(s, upload).value;
    forall i | 0 <= i < |s| ensures r[i].id == s[i].id && WellTyped(r[i]) {
      assert Some(r[i]) == ResolveBlock(s[i], upload);
    }
  }
}
