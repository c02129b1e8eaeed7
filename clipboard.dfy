/** The clipboard viewer: on each paste it collects the pasted items (text kept as is, a
    file described by name, size and type, anything else dropped) and lists them with
    every non-`text/plain` item before the `text/plain` ones. */
module Clipboard {
  import opened Wrappers
  import opened Text
  import Seqs

  datatype Kind = StringKind | FileKind

  /** A listed item. */
  datatype ClipboardItem = ClipboardItem(mimeType: string, data: string, kind: Kind)

  datatype PastedFile = PastedFile(name: string, size: nat, fileType: string)

  /** An entry of the paste event's item list, with the text `getAsString` delivers and
      the file `getAsFile` returns (None for no file). */
  datatype PastedItem =
    | StringItem(mimeType: string, text: string)
    | FileItem(mimeType: string, file: Option<PastedFile>)
    | OtherItem(mimeType: string)

  const PLAIN: string := "text/plain"

  /** The listed description of a file. */
  function FileDescription(f: PastedFile): string {
    "Name: " + f.name + "\nSize: " + Decimal(f.size) + " bytes\nType: " + f.fileType
  }

  /** The file entries pushed while the items are walked, in item order. */
  function FileEntries(items: seq<PastedItem>): seq<ClipboardItem> {
    if items == [] then []
    else
      var last := items[|items| - 1];
      FileEntries(items[..|items| - 1])
      + (if last.FileItem? && last.file.Some?
         then [ClipboardItem(last.mimeType, FileDescription(last.file.value), FileKind)] else [])
  }

  /** The text entries, pushed as the `getAsString` callbacks fire, in item order. */
  function StringEntries(items: seq<PastedItem>): seq<ClipboardItem> {
    if items == [] then []
    else
      var last := items[|items| - 1];
      StringEntries(items[..|items| - 1])
      + (if last.StringItem? then [ClipboardItem(last.mimeType, last.text, StringKind)] else [])
  }

  /** Everything collected: the file entries, pushed synchronously, then the text
      entries. */
  function Collected(items: seq<PastedItem>): seq<ClipboardItem> {
    FileEntries(items) + StringEntries(items)
  }

  /** Every item with a file contributes its description, and nothing else does. */
  lemma {:induction false} FileEntriesSpec(items: seq<PastedItem>)
    ensures forall i :: 0 <= i < |items| && items[i].FileItem? && items[i].file.Some? ==>
      ClipboardItem(items[i].mimeType, FileDescription(items[i].file.value), FileKind) in FileEntries(items)
    ensures forall e :: e in FileEntries(items) ==> exists i :: 0 <= i < |items| && Source(items[i], e)
  {
    if items != [] {
      var init := items[..|items| - 1];
      FileEntriesSpec(init);
      assert forall i :: 0 <= i < |init| ==> items[i] == init[i];
      forall e | e in FileEntries(items)
        ensures exists i :: 0 <= i < |items| && Source(items[i], e)
      {
        if e in FileEntries(init) {
          var i :| 0 <= i < |init| && Source(init[i], e);
          assert Source(items[i], e);
        } else {
          assert Source(items[|items| - 1], e);
        }
      }
    }
  }

  /** Every text item contributes its text, and nothing else does. */
  lemma {:induction false} StringEntriesSpec(items: seq<PastedItem>)
    ensures forall i :: 0 <= i < |items| && items[i].StringItem? ==>
      ClipboardItem(items[i].mimeType, items[i].text, StringKind) in StringEntries(items)
    ensures forall e :: e in StringEntries(items) ==> exists i :: 0 <= i < |items| && Source(items[i], e)
  {
    if items != [] {
      var init := items[..|items| - 1];
      StringEntriesSpec(init);
      assert forall i :: 0 <= i < |init| ==> items[i] == init[i];
      forall e | e in StringEntries(items)
        ensures exists i :: 0 <= i < |items| && Source(items[i], e)
      {
        if e in StringEntries(init) {
          var i :| 0 <= i < |init| && Source(init[i], e);
          assert Source(items[i], e);
        } else {
          assert Source(items[|items| - 1], e);
        }
      }
    }
  }

  /** Every text item is kept with its type and text, every item with a file becomes its
      description with the item's type, and nothing else is collected. */
  lemma CollectedSpec(items: seq<PastedItem>)
    ensures forall i :: 0 <= i < |items| && items[i].StringItem? ==>
      ClipboardItem(items[i].mimeType, items[i].text, StringKind) in Collected(items)
    ensures forall i :: 0 <= i < |items| && items[i].FileItem? && items[i].file.Some? ==>
      ClipboardItem(items[i].mimeType, FileDescription(items[i].file.value), FileKind) in Collected(items)
    ensures forall e :: e in Collected(items) ==> exists i :: 0 <= i < |items| && Source(items[i], e)
  {
    FileEntriesSpec(items);
    StringEntriesSpec(items);
  }

  /** e is the entry the item contributes. */
  predicate Source(item: PastedItem, e: ClipboardItem) {
    match item
    case StringItem(t, text) => e == ClipboardItem(t, text, StringKind)
    case FileItem(t, file) => file.Some? && e == ClipboardItem(t, FileDescription(file.value), FileKind)
    case OtherItem(_) => false
  }

  predicate NotPlain(e: ClipboardItem) {
    e.mimeType != PLAIN
  }

  /** The comparator: 1 when only a is plain text, -1 when only b is, 0 otherwise. */
  function Compare(a: ClipboardItem, b: ClipboardItem): int {
    if a.mimeType == PLAIN && b.mimeType != PLAIN then 1
    else if a.mimeType != PLAIN && b.mimeType == PLAIN then -1
    else 0
  }

  /** The stable sort by that comparator: the non-plain entries, then the plain ones, each
      in collection order. */
  function SortedForDisplay(collected: seq<ClipboardItem>): seq<ClipboardItem> {
    Seqs.StablePartition(NotPlain, collected)
  }

  /** The sorted list is a permutation of what was collected; the comparator never puts an
      item after a later one (no plain item precedes a non-plain one); and the comparator
      returning 0 within a group, each group keeps its collection order. */
  lemma SortedForDisplaySpec(collected: seq<ClipboardItem>)
    ensures var r := SortedForDisplay(collected);
      && multiset(r) == multiset(collected)
      && (forall i, j :: 0 <= i < j < |r| ==> Compare(r[i], r[j]) <= 0)
      && Seqs.Filter(NotPlain, r) == Seqs.Filter(NotPlain, collected)
      && Seqs.Filter(Seqs.Not(NotPlain), r) == Seqs.Filter(Seqs.Not(NotPlain), collected)
  {
    Seqs.StablePartitionIsPermutation(NotPlain, collected);
    Seqs.StablePartitionOrdered(NotPlain, collected);
    Seqs.StablePartitionKeepsGroups(NotPlain, collected);
  }

  /** useClipboardViewer's state. */
  class ClipboardViewer {
    var clipboardItems: seq<ClipboardItem>
    var error: Option<string>

    constructor()
      ensures clipboardItems == [] && error.None?
    {
      clipboardItems := [];
      error := None;
    }

    /** handlePaste: the error and the list are reset, the entries collected and the list
        set to them sorted. No item promise rejects and the comparator cannot throw, so
        the error stays cleared. */
    method HandlePaste(items: seq<PastedItem>)
      modifies this
      ensures error.None?
      ensures clipboardItems == SortedForDisplay(Collected(items))
    {
      error := None;
      clipboardItems := [];
      var collectedItems: seq<ClipboardItem> := [];
      var i := 0;
      while i < |items|
        invariant 0 <= i <= |items|
        invariant collectedItems == FileEntries(items[..i])
      {
        assert items[..i + 1][..i] == items[..i];
        var item := items[i];
        if item.FileItem? && item.file.Some? {
          collectedItems := collectedItems + [ClipboardItem(item.mimeType, FileDescription(item.file.value), FileKind)];
        }
        i := i + 1;
      }
      assert items[..|items|] == items;
      i := 0;
      while i < |items|
        invariant 0 <= i <= |items|
        invariant collectedItems == FileEntries(items) + StringEntries(items[..i])
      {
        assert items[..i + 1][..i] == items[..i];
        var item := items[i];
        if item.StringItem? {
          collectedItems := collectedItems + [ClipboardItem(item.mimeType, item.text, StringKind)];
        }
        i := i + 1;
      }
      assert items[..|items|] == items;
      clipboardItems := SortedForDisplay(collectedItems);
    }
  }
}
