/** The editor's image node and its upload flow: image files dropped or pasted into
    the editor are each given a placeholder image marked with an id in its `loading`
    attribute; when the upload answers, every image carrying that mark is replaced
    by the uploaded image, and when it fails they are removed. The document is a
    sequence of top-level nodes; a position is an index between them. The upload
    itself is asynchronous I/O: it is represented by its outcome, handed to
    `CompleteUpload`. */
module ImageUpload {
  import opened Common

  const NodeName := "image"
  const ImageMimePrefix := "image/"
  const PlaceholderSrc := "data:image/gif;base64,R0lGODlhAQABAIAAAAAAAP///yH5BAEAAAAALAAAAAABAAEAAAIBRAA7"
  const PlaceholderAlt := "Uploading..."
  const IdPrefix := "uploading-"

  /** The node's options and the group they put it in. */
  datatype ImageOptions = ImageOptions(inline: bool, allowBase64: bool)

  const DefaultOptions := ImageOptions(false, false)

  function Group(options: ImageOptions): (g: string)
    ensures g == "inline" <==> options.inline
    ensures g == "block" <==> !options.inline
  {
    if options.inline then "inline" else "block"
  }

  /** The four attributes of an image node; each defaults to null. */
  datatype ImageAttrs = ImageAttrs(src: Option<string>, alt: Option<string>, title: Option<string>, loading: Option<string>)

  const DefaultAttrs := ImageAttrs(None, None, None, None)

  /** A top-level node: an image, or any other node, known by its type name. */
  datatype DocNode = Image(attrs: ImageAttrs) | OtherNode(name: string)

  /** `setImage({ src, alt, title })`: an image with these attributes, the rest at their defaults. */
  function SetImage(src: string, alt: Option<string>, title: Option<string>): (n: DocNode)
    ensures n.Image? && n.attrs.src == Some(src) && n.attrs.alt == alt && n.attrs.title == title
    ensures n.attrs.loading == DefaultAttrs.loading
  {
    Image(ImageAttrs(Some(src), alt, title, None))
  }

  /** The placeholder shown while an upload runs: a 1x1 gif marked with the upload's id. */
  function Placeholder(id: string): DocNode
  {
    Image(ImageAttrs(Some(PlaceholderSrc), Some(PlaceholderAlt), None, Some(id)))
  }

  /** The image an answered upload puts in the placeholder's place. */
  function UploadedImage(url: string, originalName: string): (n: DocNode)
    ensures n == SetImage(url, Some(originalName), None)
  {
    Image(ImageAttrs(Some(url), Some(originalName), None, None))
  }

  /** `node.type.name === 'image' && node.attrs.loading === id`. */
  predicate Marked(n: DocNode, id: string)
  {
    n.Image? && n.attrs.loading == Some(id)
  }

  lemma PlaceholderMarks(id: string, other: string, url: string, name: string)
    ensures Marked(Placeholder(id), id)
    ensures Marked(Placeholder(id), other) <==> id == other
    ensures !Marked(UploadedImage(url, name), other)
  {
  }

  // ---------------------------------------------------------------------------
  // Which files are uploaded.

  datatype FileInfo = FileInfo(name: string, mime: string)

  predicate IsImageFile(f: FileInfo)
  {
    StartsWith(f.mime, ImageMimePrefix)
  }

  /** `files?.length`, taken as truthy. */
  predicate HasFiles(files: Option<seq<FileInfo>>)
  {
    files.Some? && |files.value| > 0
  }

  /** The image files in their order. */
  function FilterImages(files: seq<FileInfo>): (r: seq<FileInfo>)
    ensures |r| <= |files|
    ensures forall k :: 0 <= k < |r| ==> IsImageFile(r[k]) && r[k] in files
    ensures forall f :: f in files && IsImageFile(f) ==> f in r
  {
    if files == [] then []
    else if IsImageFile(files[0]) then [files[0]] + FilterImages(files[1..])
    else FilterImages(files[1..])
  }

  /** The images of the event's file list; none when it has no list. */
  function Images(files: Option<seq<FileInfo>>): (r: seq<FileInfo>)
    ensures r != [] ==> HasFiles(files)
  {
    if files.Some? then FilterImages(files.value) else []
  }

  /** Filtering twice changes nothing. */
  lemma {:induction false} FilterImagesIdempotent(files: seq<FileInfo>)
    ensures FilterImages(FilterImages(files)) == FilterImages(files)
  {
    if files != [] {
      FilterImagesIdempotent(files[1..]);
    }
  }

  /** Filtering works file by file and keeps the order: a single file is kept exactly when it is an
      image, and the images of a concatenation are the images of its parts. */
  lemma {:induction false} FilterImagesAppend(a: seq<FileInfo>, b: seq<FileInfo>, f: FileInfo)
    ensures FilterImages([f]) == if IsImageFile(f) then [f] else []
    ensures FilterImages(a + b) == FilterImages(a) + FilterImages(b)
  {
    assert [f][1..] == [];
    if a == [] {
      assert a + b == b;
    } else {
      assert (a + b)[0] == a[0];
      assert (a + b)[1..] == a[1..] + b;
      FilterImagesAppend(a[1..], b, f);
    }
  }

  /** One pending upload: the file and the id of its placeholder. */
  datatype Upload = Upload(file: FileInfo, id: string)

  function PairUp(images: seq<FileInfo>, ids: seq<string>): (r: seq<Upload>)
    requires |images| == |ids|
    ensures |r| == |images|
    ensures forall k :: 0 <= k < |r| ==> r[k] == Upload(images[k], ids[k])
  {
    if images == [] then [] else [Upload(images[0], ids[0])] + PairUp(images[1..], ids[1..])
  }

  // ---------------------------------------------------------------------------
  // Placeholder ids.

  /** `\`uploading-${Date.now()}\``, one clock reading per image. */
  function AsWrittenIds(readings: seq<nat>): (ids: seq<string>)
    ensures |ids| == |readings|
    ensures forall k :: 0 <= k < |ids| ==> ids[k] == IdPrefix + NatToString(readings[k])
  {
    if readings == [] then [] else [IdPrefix + NatToString(readings[0])] + AsWrittenIds(readings[1..])
  }

  /** Two images of one event get the same id exactly when the clock read the same millisecond for both,
      which the synchronous loop over the images makes the usual case. */
  lemma AsWrittenIdsCollide(readings: seq<nat>, i: nat, j: nat)
    requires i < |readings| && j < |readings|
    ensures AsWrittenIds(readings)[i] == AsWrittenIds(readings)[j] <==> readings[i] == readings[j]
  {
    var ids := AsWrittenIds(readings);
    if ids[i] == ids[j] {
      var a, b := NatToString(readings[i]), NatToString(readings[j]);
      assert a == ids[i][|IdPrefix|..] && b == ids[j][|IdPrefix|..];
      NatToStringInjective(readings[i], readings[j]);
    }
  }

  /** The corrected ids: one clock reading for the event and the image's index after it. */
  function EventIds(now: nat, n: nat): (ids: seq<string>)
    ensures |ids| == n
    ensures forall k :: 0 <= k < n ==> ids[k] == IdPrefix + NatToString(now) + "-" + NatToString(k)
  {
    if n == 0 then [] else EventIds(now, n - 1) + [IdPrefix + NatToString(now) + "-" + NatToString(n - 1)]
  }

  /** The ids of one event are pairwise distinct. */
  lemma EventIdsDistinct(now: nat, n: nat, i: nat, j: nat)
    requires i < n && j < n && i != j
    ensures EventIds(now, n)[i] != EventIds(now, n)[j]
  {
    var ids := EventIds(now, n);
    var head := IdPrefix + NatToString(now) + "-";
    if ids[i] == ids[j] {
      assert ids[i] == head + NatToString(i) && ids[j] == head + NatToString(j);
      assert NatToString(i) == ids[i][|head|..];
      assert NatToString(j) == ids[j][|head|..];
      NatToStringInjective(i, j);
    }
  }

  // ---------------------------------------------------------------------------
  // What an upload's outcome does to the document.

  /** Every image marked with `id` replaced by the uploaded image. */
  function Replaced(d: seq<DocNode>, id: string, url: string, name: string): (r: seq<DocNode>)
    ensures |r| == |d|
    ensures forall k :: 0 <= k < |d| ==> r[k] == if Marked(d[k], id) then UploadedImage(url, name) else d[k]
  {
    if d == [] then []
    else
      var last := d[|d| - 1];
      Replaced(d[..|d| - 1], id, url, name) + [if Marked(last, id) then UploadedImage(url, name) else last]
  }

  function CountMarked(d: seq<DocNode>, id: string): (c: nat)
    ensures c <= |d|
  {
    if d == [] then 0 else CountMarked(d[..|d| - 1], id) + (if Marked(d[|d| - 1], id) then 1 else 0)
  }

  /** Every node marked with `id` removed, the others kept in order. */
  function Removed(d: seq<DocNode>, id: string): (r: seq<DocNode>)
    ensures |r| == |d| - CountMarked(d, id)
    ensures (forall k :: 0 <= k < |d| ==> !Marked(d[k], id)) ==> r == d
  {
    if d == [] then []
    else
      var last := d[|d| - 1];
      var front := Removed(d[..|d| - 1], id);
      if Marked(last, id) then front else front + [last]
  }

  /** What is removed is exactly the marked nodes: the result holds every other node of the document
      and nothing else. */
  lemma {:induction false} RemovedContents(d: seq<DocNode>, id: string)
    ensures forall n :: n in Removed(d, id) <==> n in d && !Marked(n, id)
  {
    if d != [] {
      var front := d[..|d| - 1];
      RemovedContents(front, id);
      assert d == front + [d[|d| - 1]];
      assert forall n :: n in d <==> n in front || n == d[|d| - 1];
    }
  }

  /** The index of the last node marked with `id`, the one whose handling leaves the cursor. */
  function LastMarked(d: seq<DocNode>, id: string): (r: Option<nat>)
    ensures r.Some? ==> r.value < |d| && Marked(d[r.value], id)
    ensures r.Some? ==> forall k :: r.value < k < |d| ==> !Marked(d[k], id)
    ensures r.None? <==> forall k :: 0 <= k < |d| ==> !Marked(d[k], id)
  {
    if d == [] then None
    else if Marked(d[|d| - 1], id) then Some(|d| - 1)
    else LastMarked(d[..|d| - 1], id)
  }

  /** After a completion, no node carries the finished upload's mark. */
  lemma CompletionClearsMark(d: seq<DocNode>, id: string, url: string, name: string)
    ensures forall k :: 0 <= k < |d| ==> !Marked(Replaced(d, id, url, name)[k], id)
    ensures forall n :: n in Removed(d, id) ==> !Marked(n, id)
  {
    RemovedContents(d, id);
  }

  /** With distinct ids two uploads finish in either order to the same document, each image landing
      in its own placeholder. */
  lemma DistinctUploadsCommute(d: seq<DocNode>, a: string, ua: string, na: string, b: string, ub: string, nb: string)
    requires a != b
    ensures Replaced(Replaced(d, a, ua, na), b, ub, nb) == Replaced(Replaced(d, b, ub, nb), a, ua, na)
    ensures forall k :: 0 <= k < |d| && Marked(d[k], b) ==> Replaced(Replaced(d, a, ua, na), b, ub, nb)[k] == UploadedImage(ub, nb)
  {
    var x, y := Replaced(Replaced(d, a, ua, na), b, ub, nb), Replaced(Replaced(d, b, ub, nb), a, ua, na);
    forall k | 0 <= k < |d| ensures x[k] == y[k] {
      PlaceholderOrOther(d[k], a, b);
    }
  }

  lemma PlaceholderOrOther(n: DocNode, a: string, b: string)
    requires a != b
    ensures !(Marked(n, a) && Marked(n, b))
  {
  }

  /** With the ids as written, two images dropped in the same millisecond share an id: the first upload
      to answer fills both placeholders with its image and the second finds nothing to replace. */
  lemma CollidingUploadLosesImage()
    ensures var id := AsWrittenIds([5, 5])[0];
      var d := [Placeholder(id), Placeholder(AsWrittenIds([5, 5])[1])];
      var after := Replaced(Replaced(d, id, "u1", "a.png"), AsWrittenIds([5, 5])[1], "u2", "b.png");
      after == [UploadedImage("u1", "a.png"), UploadedImage("u1", "a.png")]
      && UploadedImage("u2", "b.png") !in after
  {
    var ids := AsWrittenIds([5, 5]);
    AsWrittenIdsCollide([5, 5], 0, 1);
    var d := [Placeholder(ids[0]), Placeholder(ids[1])];
    var first := Replaced(d, ids[0], "u1", "a.png");
    assert first == [UploadedImage("u1", "a.png"), UploadedImage("u1", "a.png")];
    var after := Replaced(first, ids[1], "u2", "b.png");
    assert after == first;
  }

  /** The placeholders a drop leaves: each one inserted at the drop position, so in reverse order. */
  function Stacked(ids: seq<string>): (r: seq<DocNode>)
    ensures |r| == |ids|
    ensures forall k :: 0 <= k < |r| ==> r[k] == Placeholder(ids[|ids| - 1 - k])
  {
    if ids == [] then [] else [Placeholder(ids[|ids| - 1])] + Stacked(ids[..|ids| - 1])
  }

  /** The placeholders a paste leaves: each one inserted at the cursor, which moves past it. */
  function InOrder(ids: seq<string>): (r: seq<DocNode>)
    ensures |r| == |ids|
    ensures forall k :: 0 <= k < |r| ==> r[k] == Placeholder(ids[k])
  {
    if ids == [] then [] else InOrder(ids[..|ids| - 1]) + [Placeholder(ids[|ids| - 1])]
  }

  /** Where `insertContent` puts new content: over the selected node when a node is selected, at the
      cursor otherwise. */
  function SelectionFrom(cursor: nat, selected: bool): nat
    requires selected ==> cursor > 0
  {
    if selected then cursor - 1 else cursor
  }

  /** The document a paste leaves as the code is written, from the selection `from`..`to`: only the
      last image's placeholder, over the selection. */
  function PastedAsWritten(d: seq<DocNode>, from: nat, to: nat, ids: seq<string>): (r: seq<DocNode>)
    requires from <= to <= |d| && ids != []
    ensures |r| == |d| - (to - from) + 1
  {
    d[..from] + [Placeholder(ids[|ids| - 1])] + d[to..]
  }

  /** The placeholder of every image but the last is gone from a paste as written, so when its upload
      answers no node carries its mark and its image never appears. */
  lemma PasteLosesEarlierImages(d: seq<DocNode>, from: nat, to: nat, ids: seq<string>, k: nat, url: string, name: string)
    requires from <= to <= |d| && k < |ids| - 1 && ids[k] != ids[|ids| - 1]
    requires forall j :: 0 <= j < |d| ==> !Marked(d[j], ids[k])
    ensures forall j :: 0 <= j < |PastedAsWritten(d, from, to, ids)| ==> !Marked(PastedAsWritten(d, from, to, ids)[j], ids[k])
    ensures Replaced(PastedAsWritten(d, from, to, ids), ids[k], url, name) == PastedAsWritten(d, from, to, ids)
  {
    var r := PastedAsWritten(d, from, to, ids);
    forall j | 0 <= j < |r|
      ensures !Marked(r[j], ids[k])
    {
      if j < from {
        assert r[j] == d[j];
      } else if j > from {
        assert r[j] == d[to + j - from - 1];
      } else {
        assert r[j] == Placeholder(ids[|ids| - 1]);
      }
    }
  }

  /** Two images pasted into an empty document: the first placeholder is replaced by the second, and
      the first image never appears when its upload answers. */
  lemma TwoImagePasteLosesFirst()
    ensures PastedAsWritten([], 0, 0, ["a", "b"]) == [Placeholder("b")]
    ensures Replaced([Placeholder("b")], "a", "u1", "a.png") == [Placeholder("b")]
  {
    PasteLosesEarlierImages([], 0, 0, ["a", "b"], 0, "u1", "a.png");
  }

  /** After an in-order paste each upload that answers fills its own placeholder, at the selection
      plus its index, when the surrounding nodes carry no placeholder of that paste. */
  lemma InOrderPasteKeepsEveryImage(front: seq<DocNode>, ids: seq<string>, back: seq<DocNode>, k: nat, url: string, name: string)
    requires k < |ids|
    ensures Replaced(front + InOrder(ids) + back, ids[k], url, name)[|front| + k] == UploadedImage(url, name)
  {
    var d := front + InOrder(ids) + back;
    assert d[|front| + k] == InOrder(ids)[k] == Placeholder(ids[k]);
    assert Marked(d[|front| + k], ids[k]);
  }

  /** The outcome of `imageApi.upload`: an answer with its success flag and image, or a thrown error. */
  datatype UploadOutcome = Answered(success: bool, url: string, originalName: string) | Threw

  /** The editor's document and cursor, as the upload flow changes them. */
  class ImageEditor {
    var doc: seq<DocNode>
    var cursor: nat
    /** Whether the node just before the cursor is selected as a node. An insertion leaves the image
        it inserted selected this way, since the selection is placed near the insertion's end. */
    var selected: bool

    predicate Valid()
      reads this
    {
      cursor <= |doc| && (selected ==> cursor > 0)
    }

    /** An editor with a text cursor between two nodes. */
    constructor(doc: seq<DocNode>, cursor: nat)
      requires cursor <= |doc|
      ensures Valid() && this.doc == doc && this.cursor == cursor && !selected
    {
      this.doc := doc;
      this.cursor := cursor;
      this.selected := false;
    }

    /** `insertContentAt(position, placeholder)`: the node goes in at the position and is selected. */
    method InsertPlaceholder(position: nat, id: string)
      requires position <= |doc|
      modifies this
      ensures Valid()
      ensures doc == old(doc)[..position] + [Placeholder(id)] + old(doc)[position..]
      ensures cursor == position + 1 && selected
    {
      doc := doc[..position] + [Placeholder(id)] + doc[position..];
      cursor := position + 1;
      selected := true;
    }

    /** `focus().setImage(placeholder)`: `insertContent` replaces the selection, so a selected node is
        replaced and otherwise the node goes in at the cursor; the new node is then selected. */
    method SetPlaceholder(id: string)
      requires Valid()
      modifies this
      ensures Valid()
      ensures doc == old(doc)[..SelectionFrom(old(cursor), old(selected))] + [Placeholder(id)] + old(doc)[old(cursor)..]
      ensures cursor == SelectionFrom(old(cursor), old(selected)) + 1 && selected
    {
      var from := SelectionFrom(cursor, selected);
      doc := doc[..from] + [Placeholder(id)] + doc[cursor..];
      cursor := from + 1;
      selected := true;
    }

    /** The drop handler: no files, no image file or no position under the pointer leaves the event
        alone; otherwise each image gets a placeholder at the drop position and an upload. The default
        is prevented as soon as there is an image file, before the position is looked up. */
    method Drop(files: Option<seq<FileInfo>>, coordinates: Option<nat>, ids: seq<string>)
      returns (handled: bool, prevented: bool, uploads: seq<Upload>)
      requires Valid()
      requires |ids| == |Images(files)|
      requires coordinates.Some? ==> coordinates.value <= |doc|
      modifies this
      ensures Valid()
      ensures prevented <==> HasFiles(files) && Images(files) != []
      ensures handled <==> prevented && coordinates.Some?
      ensures handled ==> doc == old(doc)[..coordinates.value] + Stacked(ids) + old(doc)[coordinates.value..]
      ensures handled ==> cursor == coordinates.value + 1 && selected && uploads == PairUp(Images(files), ids)
      ensures !handled ==> doc == old(doc) && cursor == old(cursor) && selected == old(selected) && uploads == []
    {
      handled, prevented, uploads := false, false, [];
      if !HasFiles(files) {
        return;
      }
      var images := Images(files);
      if |images| == 0 {
        return;
      }
      prevented := true;
      if coordinates.None? {
        return;
      }
      uploads := PlaceAll(coordinates.value, images, ids);
      handled := true;
    }

    /** The drop handler's loop: a placeholder at the same position for each image, in turn. */
    method PlaceAll(pos: nat, images: seq<FileInfo>, ids: seq<string>) returns (uploads: seq<Upload>)
      requires pos <= |doc| && |images| == |ids| && |images| > 0
      modifies this
      ensures Valid()
      ensures doc == old(doc)[..pos] + Stacked(ids) + old(doc)[pos..]
      ensures cursor == pos + 1 && selected && uploads == PairUp(images, ids)
    {
      ghost var front, back := doc[..pos], doc[pos..];
      uploads := [];
      var i := 0;
      while i < |images|
        invariant 0 <= i <= |images| && |front| == pos
        invariant doc == front + Stacked(ids[..i]) + back
        invariant i > 0 ==> cursor == pos + 1 && selected
        invariant uploads == PairUp(images[..i], ids[..i])
      {
        InsertInFront(front, Stacked(ids[..i]), back, Placeholder(ids[i]));
        InsertPlaceholder(pos, ids[i]);
        StackedSnoc(ids, i);
        PairUpPrefix(images, ids, i);
        uploads := uploads + [Upload(images[i], ids[i])];
        i := i + 1;
      }
      assert images[..i] == images && ids[..i] == ids;
    }

    /** The paste handler as written: without an image file the event is left alone; otherwise each
        image gets an upload and a `setImage` of its placeholder. Each `setImage` replaces the
        placeholder the one before it left selected, so only the last image's placeholder remains,
        over the original selection. */
    method Paste(files: Option<seq<FileInfo>>, ids: seq<string>) returns (handled: bool, uploads: seq<Upload>)
      requires Valid()
      requires |ids| == |Images(files)|
      modifies this
      ensures Valid()
      ensures handled <==> HasFiles(files) && Images(files) != []
      ensures handled ==> doc == PastedAsWritten(old(doc), SelectionFrom(old(cursor), old(selected)), old(cursor), ids)
      ensures handled ==> cursor == SelectionFrom(old(cursor), old(selected)) + 1 && selected
      ensures handled ==> uploads == PairUp(Images(files), ids)
      ensures !handled ==> doc == old(doc) && cursor == old(cursor) && selected == old(selected) && uploads == []
    {
      handled, uploads := false, [];
      if !HasFiles(files) {
        return;
      }
      var images := Images(files);
      if |images| == 0 {
        return;
      }
      uploads := PlaceEach(images, ids);
      handled := true;
    }

    /** The paste handler's loop: a `setImage` of a placeholder for each image, in turn. */
    method PlaceEach(images: seq<FileInfo>, ids: seq<string>) returns (uploads: seq<Upload>)
      requires Valid() && |images| == |ids| && |images| > 0
      modifies this
      ensures Valid()
      ensures doc == PastedAsWritten(old(doc), SelectionFrom(old(cursor), old(selected)), old(cursor), ids)
      ensures cursor == SelectionFrom(old(cursor), old(selected)) + 1 && selected
      ensures uploads == PairUp(images, ids)
    {
      ghost var from := SelectionFrom(cursor, selected);
      ghost var front, back := doc[..from], doc[cursor..];
      SetPlaceholder(ids[0]);
      assert PairUp(images[..1], ids[..1]) == [Upload(images[0], ids[0])];
      uploads := [Upload(images[0], ids[0])];
      var i := 1;
      while i < |images|
        invariant 1 <= i <= |images| && |front| == from
        invariant doc == front + [Placeholder(ids[i - 1])] + back
        invariant cursor == from + 1 && selected
        invariant uploads == PairUp(images[..i], ids[..i])
      {
        assert doc[..cursor - 1] == front && doc[cursor..] == back;
        SetPlaceholder(ids[i]);
        PairUpPrefix(images, ids, i);
        uploads := uploads + [Upload(images[i], ids[i])];
        i := i + 1;
      }
      assert images[..i] == images && ids[..i] == ids;
    }

    /** The paste handler as intended: the first placeholder replaces the selection as `setImage`
        does, and each later one goes in with `insertContentAt` at the end of the selection, just past
        the one before, so every image keeps its placeholder, in order. */
    method PasteInOrder(files: Option<seq<FileInfo>>, ids: seq<string>) returns (handled: bool, uploads: seq<Upload>)
      requires Valid()
      requires |ids| == |Images(files)|
      modifies this
      ensures Valid()
      ensures handled <==> HasFiles(files) && Images(files) != []
      ensures handled ==> doc == old(doc)[..SelectionFrom(old(cursor), old(selected))] + InOrder(ids) + old(doc)[old(cursor)..]
      ensures handled ==> cursor == SelectionFrom(old(cursor), old(selected)) + |ids| && selected
      ensures handled ==> uploads == PairUp(Images(files), ids)
      ensures !handled ==> doc == old(doc) && cursor == old(cursor) && selected == old(selected) && uploads == []
    {
      handled, uploads := false, [];
      if !HasFiles(files) {
        return;
      }
      var images := Images(files);
      if |images| == 0 {
        return;
      }
      uploads := PlaceInOrder(images, ids);
      handled := true;
    }

    /** The intended paste loop: the first placeholder over the selection, the others each after it. */
    method PlaceInOrder(images: seq<FileInfo>, ids: seq<string>) returns (uploads: seq<Upload>)
      requires Valid() && |images| == |ids| && |images| > 0
      modifies this
      ensures Valid()
      ensures doc == old(doc)[..SelectionFrom(old(cursor), old(selected))] + InOrder(ids) + old(doc)[old(cursor)..]
      ensures cursor == SelectionFrom(old(cursor), old(selected)) + |ids| && selected
      ensures uploads == PairUp(images, ids)
    {
      ghost var front, back := doc[..SelectionFrom(cursor, selected)], doc[cursor..];
      SetPlaceholder(ids[0]);
      uploads := InsertRestInOrder(images, ids, front, back);
    }

    /** Each placeholder after the first goes in just past the one before it. */
    method InsertRestInOrder(images: seq<FileInfo>, ids: seq<string>, ghost front: seq<DocNode>, ghost back: seq<DocNode>)
      returns (uploads: seq<Upload>)
      requires |images| == |ids| && |images| > 0
      requires doc == front + [Placeholder(ids[0])] + back && cursor == |front| + 1
      modifies this
      ensures Valid() && selected
      ensures doc == front + InOrder(ids) + back && cursor == |front| + |ids|
      ensures uploads == PairUp(images, ids)
    {
      assert InOrder(ids[..1]) == [Placeholder(ids[0])];
      assert PairUp(images[..1], ids[..1]) == [Upload(images[0], ids[0])];
      uploads := [Upload(images[0], ids[0])];
      selected := true;
      var i := 1;
      while i < |images|
        invariant 1 <= i <= |images|
        invariant doc == front + InOrder(ids[..i]) + back
        invariant cursor == |front| + i && selected
        invariant uploads == PairUp(images[..i], ids[..i])
      {
        InsertBehind(front, InOrder(ids[..i]), back, Placeholder(ids[i]));
        InsertPlaceholder(cursor, ids[i]);
        InOrderSnoc(ids, i);
        PairUpPrefix(images, ids, i);
        uploads := uploads + [Upload(images[i], ids[i])];
        i := i + 1;
      }
      assert images[..i] == images && ids[..i] == ids;
    }

    /** The end of `uploadImage`: a successful answer replaces every image marked with the id, walking the
        document and selecting each in turn; an unsuccessful answer leaves the placeholder; a thrown
        error removes the marked nodes. The cursor ends where the last selection left it. */
    method CompleteUpload(id: string, outcome: UploadOutcome)
      requires Valid()
      modifies this
      ensures Valid()
      ensures outcome.Answered? && outcome.success ==>
        doc == Replaced(old(doc), id, outcome.url, outcome.originalName)
      ensures outcome.Answered? && outcome.success ==> cursor == ReplaceCursor(old(doc), id, old(cursor))
      ensures outcome.Answered? && outcome.success ==> selected == (old(selected) || LastMarked(old(doc), id).Some?)
      ensures outcome.Answered? && !outcome.success ==> doc == old(doc) && cursor == old(cursor) && selected == old(selected)
      ensures outcome.Threw? ==> doc == Removed(old(doc), id) && cursor == RemoveCursor(old(doc), id, old(cursor))
      ensures outcome.Threw? ==> selected == (old(selected) && LastMarked(old(doc), id).None?)
    {
      if outcome.Answered? {
        if outcome.success {
          ReplaceMarked(id, outcome.url, outcome.originalName);
        }
      } else {
        RemoveMarked(id);
      }
    }

    /** The success walk: each marked image is selected and replaced where it stands, and the new
        image is left selected. */
    method ReplaceMarked(id: string, url: string, name: string)
      requires Valid()
      modifies this
      ensures Valid()
      ensures doc == Replaced(old(doc), id, url, name)
      ensures cursor == ReplaceCursor(old(doc), id, old(cursor))
      ensures selected == (old(selected) || LastMarked(old(doc), id).Some?)
    {
      ghost var d := doc;
      var j := 0;
      while j < |doc|
        invariant |doc| == |d| && 0 <= j <= |d|
        invariant doc == Replaced(d[..j], id, url, name) + d[j..]
        invariant cursor == ReplaceCursor(d[..j], id, old(cursor))
        invariant selected == (old(selected) || LastMarked(d[..j], id).Some?)
        invariant cursor <= |d| && (selected ==> cursor > 0)
      {
        ReplaceStep(d, j, id, url, name, old(cursor));
        LastMarkedStep(d, j, id);
        if Marked(doc[j], id) {
          doc := doc[j := UploadedImage(url, name)];
          cursor := j + 1;
          selected := true;
        }
        j := j + 1;
      }
      assert d[..j] == d;
    }

    /** The failure walk: each marked node is selected and deleted; the cursor stays where the deleted
        node stood, between two nodes. */
    method RemoveMarked(id: string)
      requires Valid()
      modifies this
      ensures Valid()
      ensures doc == Removed(old(doc), id)
      ensures cursor == RemoveCursor(old(doc), id, old(cursor))
      ensures selected == (old(selected) && LastMarked(old(doc), id).None?)
    {
      var d, c0 := doc, cursor;
      var kept: seq<DocNode> := [];
      var c := cursor;
      var j := 0;
      while j < |d|
        invariant 0 <= j <= |d| && c0 <= |d|
        invariant kept == Removed(d[..j], id)
        invariant c == RemoveCursor(d[..j], id, c0)
        invariant LastMarked(d[..j], id).Some? ==> c <= |kept|
        invariant d == old(doc) && c0 == old(cursor) && selected == old(selected)
      {
        RemoveStep(d, j, id, c0);
        LastMarkedStep(d, j, id);
        if Marked(d[j], id) {
          c := |kept|;
        } else {
          kept := kept + [d[j]];
        }
        j := j + 1;
      }
      assert d[..j] == d;
      assert c == RemoveCursor(d, id, c0);
      if LastMarked(d, id).None? {
        assert kept == d && c == c0;
      } else {
        selected := false;
      }
      doc := kept;
      cursor := c;
    }
  }

  /** Where a success walk leaves the cursor: after the last image it replaced. */
  function ReplaceCursor(d: seq<DocNode>, id: string, c0: nat): nat
  {
    match LastMarked(d, id)
    case Some(k) => k + 1
    case None => c0
  }

  /** Where a failure walk leaves the cursor: where the last deleted node stood. */
  function RemoveCursor(d: seq<DocNode>, id: string, c0: nat): nat
  {
    match LastMarked(d, id)
    case Some(k) => |Removed(d[..k], id)|
    case None => c0
  }

  lemma LastMarkedStep(d: seq<DocNode>, j: nat, id: string)
    requires j < |d|
    ensures LastMarked(d[..j + 1], id) == if Marked(d[j], id) then Some(j) else LastMarked(d[..j], id)
  {
    assert d[..j + 1][..j] == d[..j];
  }

  lemma ReplaceStep(d: seq<DocNode>, j: nat, id: string, url: string, name: string, c0: nat)
    requires j < |d|
    ensures Replaced(d[..j + 1], id, url, name) == Replaced(d[..j], id, url, name) + [if Marked(d[j], id) then UploadedImage(url, name) else d[j]]
    ensures (Replaced(d[..j], id, url, name) + d[j..])[j] == d[j]
    ensures (Replaced(d[..j], id, url, name) + d[j..])[j := UploadedImage(url, name)] == Replaced(d[..j], id, url, name) + [UploadedImage(url, name)] + d[j + 1..]
    ensures Replaced(d[..j], id, url, name) + d[j..] == Replaced(d[..j], id, url, name) + [d[j]] + d[j + 1..]
    ensures ReplaceCursor(d[..j + 1], id, c0) == if Marked(d[j], id) then j + 1 else ReplaceCursor(d[..j], id, c0)
  {
    assert d[..j + 1][..j] == d[..j];
    assert d[j..] == [d[j]] + d[j + 1..];
    LastMarkedStep(d, j, id);
  }

  lemma RemoveStep(d: seq<DocNode>, j: nat, id: string, c0: nat)
    requires j < |d|
    ensures Removed(d[..j + 1], id) == if Marked(d[j], id) then Removed(d[..j], id) else Removed(d[..j], id) + [d[j]]
    ensures RemoveCursor(d[..j + 1], id, c0) == if Marked(d[j], id) then |Removed(d[..j], id)| else RemoveCursor(d[..j], id, c0)
  {
    var p, q := d[..j], d[..j + 1];
    RemovedSnoc(p, d[j], id);
    assert p + [d[j]] == q;
    LastMarkedStep(d, j, id);
    if Marked(d[j], id) {
      assert q[..j] == p;
    } else if LastMarked(p, id).Some? {
      var k := LastMarked(p, id).value;
      assert q[..k] == p[..k];
    }
  }

  /** Removal works node by node and keeps the order: a single node is dropped exactly when it is
      marked, and the removal from a concatenation is the removal from each part. */
  lemma {:induction false} RemovedAppend(a: seq<DocNode>, b: seq<DocNode>, x: DocNode, id: string)
    ensures Removed([x], id) == if Marked(x, id) then [] else [x]
    ensures Removed(a + b, id) == Removed(a, id) + Removed(b, id)
    decreases |b|
  {
    RemovedSnoc([], x, id);
    assert [] + [x] == [x];
    if b == [] {
      assert a + b == a;
    } else {
      var front := b[..|b| - 1];
      var last := b[|b| - 1];
      assert b == front + [last];
      assert a + b == (a + front) + [last];
      RemovedAppend(a, front, x, id);
      RemovedSnoc(a + front, last, id);
      RemovedSnoc(front, last, id);
    }
  }

  lemma RemovedSnoc(d: seq<DocNode>, x: DocNode, id: string)
    ensures Removed(d + [x], id) == if Marked(x, id) then Removed(d, id) else Removed(d, id) + [x]
  {
    assert (d + [x])[..|d|] == d;
  }

  lemma InsertInFront(front: seq<DocNode>, mid: seq<DocNode>, back: seq<DocNode>, x: DocNode)
    ensures (front + mid + back)[..|front|] + [x] + (front + mid + back)[|front|..] == front + ([x] + mid) + back
  {
    assert (front + mid + back)[..|front|] == front;
    assert (front + mid + back)[|front|..] == mid + back;
  }

  lemma InsertBehind(front: seq<DocNode>, mid: seq<DocNode>, back: seq<DocNode>, x: DocNode)
    ensures (front + mid + back)[..|front| + |mid|] + [x] + (front + mid + back)[|front| + |mid|..] == front + (mid + [x]) + back
  {
    assert (front + mid + back)[..|front| + |mid|] == front + mid;
    assert (front + mid + back)[|front| + |mid|..] == back;
  }

  lemma StackedSnoc(ids: seq<string>, i: nat)
    requires i < |ids|
    ensures Stacked(ids[..i + 1]) == [Placeholder(ids[i])] + Stacked(ids[..i])
  {
    assert ids[..i + 1][..i] == ids[..i];
  }

  lemma InOrderSnoc(ids: seq<string>, i: nat)
    requires i < |ids|
    ensures InOrder(ids[..i + 1]) == InOrder(ids[..i]) + [Placeholder(ids[i])]
  {
    assert ids[..i + 1][..i] == ids[..i];
  }

  lemma PairUpPrefix(images: seq<FileInfo>, ids: seq<string>, i: nat)
    requires |images| == |ids| && i < |ids|
    ensures PairUp(images[..i + 1], ids[..i + 1]) == PairUp(images[..i], ids[..i]) + [Upload(images[i], ids[i])]
  {
    assert images[..i + 1] == images[..i] + [images[i]];
    assert ids[..i + 1] == ids[..i] + [ids[i]];
    PairUpSnoc(images[..i], ids[..i], images[i], ids[i]);
  }

  lemma PairUpSnoc(images: seq<FileInfo>, ids: seq<string>, f: FileInfo, id: string)
    requires |images| == |ids|
    ensures PairUp(images + [f], ids + [id]) == PairUp(images, ids) + [Upload(f, id)]
  {
  }
}
