/** The `list_directory` tool: which directory entries are listed, in which order, and
    how the list is cut into pages (flat, or as a depth-limited tree). */
module Listing {
  import opened Wrappers
  import opened Text
  import opened Paths
  import opened Disk
  import opened ServerConfig
  import Sorting
  import Sandbox

  // ---------------------------------------------------------------- pagination

  function Clamp(x: int, lo: int, hi: int): int
    requires lo <= hi
  {
    if x < lo then lo else if x > hi then hi else x
  }

  /** ceil(total / size), written as the integer division the code uses. */
  function PageCount(total: nat, size: nat): nat
    requires size >= 1
  {
    (total + size - 1) / size
  }

  datatype Page<T> =
    | OutOfRange(page: nat, total: nat, pages: nat)
    | Items(page: nat, pages: nat, total: nat, items: seq<T>)

  /** The page report: page size clamped to 1..maxSize, page at least 1, and the page's
      slice of the entries; a start past a non-empty list is out of range, while an
      empty list always gives an empty page. */
  function Paginate<T>(entries: seq<T>, page: nat, pageSize: nat, maxSize: nat): (r: Page<T>)
    requires maxSize >= 1
    ensures r.Items? ==> |r.items| <= maxSize && r.total == |entries|
    ensures r.OutOfRange? ==> r.total == |entries| > 0
  {
    var size := Clamp(pageSize, 1, maxSize);
    var p := Max(page, 1);
    var start := (p - 1) * size;
    var total := |entries|;
    if start >= total && total > 0 then OutOfRange(p, total, PageCount(total, size))
    else Items(p, PageCount(total, size), total, entries[Min(start, total)..Min(start + size, total)])
  }

  /** One more than the largest `usize` on a 64-bit target. */
  const UsizeModulus: nat := 0x1_0000_0000_0000_0000

  /** The page report as the code computes it in a release build: `(page - 1) * page_size`
      is a `usize` product, so a huge page number wraps around to a small start. (A debug
      build panics there instead.) `Paginate` is the corrected report the tool models. */
  function PaginateAsWritten<T>(entries: seq<T>, page: nat, pageSize: nat, maxSize: nat): (r: Page<T>)
    requires maxSize >= 1
    ensures r.Items? ==> |r.items| <= maxSize && r.total == |entries|
    ensures r.OutOfRange? ==> r.total == |entries| > 0
  {
    var size := Clamp(pageSize, 1, maxSize);
    var p := Max(page, 1);
    var start := (p - 1) * size % UsizeModulus;
    var total := |entries|;
    if start >= total && total > 0 then OutOfRange(p, total, PageCount(total, size))
    else Items(p, PageCount(total, size), total, entries[Min(start, total)..Min(start + size, total)])
  }

  /** Below the wrap-around the code's report and the corrected one agree. */
  lemma AsWrittenBelowWrap<T>(entries: seq<T>, page: nat, pageSize: nat, maxSize: nat)
    requires maxSize >= 1
    ensures (Max(page, 1) - 1) * Clamp(pageSize, 1, maxSize) < UsizeModulus ==>
      PaginateAsWritten(entries, page, pageSize, maxSize) == Paginate(entries, page, pageSize, maxSize)
  {
    var start := (Max(page, 1) - 1) * Clamp(pageSize, 1, maxSize);
    if start < UsizeModulus {
      assert start % UsizeModulus == start;
    }
  }

  /** 100 entries in pages of 64: page 2^58 + 2 starts at 2^64 + 64, which wraps to 64, so
      the code serves the second page's entries where the page is out of range. */
  lemma WrappedPageServed<T>(entries: seq<T>)
    requires |entries| == 100
    ensures PaginateAsWritten(entries, 0x400_0000_0000_0002, 64, 100)
      == Items(0x400_0000_0000_0002, 2, 100, entries[64..])
    ensures Paginate(entries, 0x400_0000_0000_0002, 64, 100) == OutOfRange(0x400_0000_0000_0002, 100, 2)
  {
    assert (0x400_0000_0000_0002 - 1) * 64 == UsizeModulus + 64;
  }

  lemma MulMonotone(a: nat, b: nat, c: nat)
    requires a <= b
    ensures a * c <= b * c
  {
  }

  /** ceil bounds: the last page reaches the total, the one before it does not. */
  lemma PageCountBounds(total: nat, size: nat)
    requires size >= 1 && total > 0
    ensures PageCount(total, size) >= 1
    ensures PageCount(total, size) * size >= total
    ensures (PageCount(total, size) - 1) * size < total
  {
    var q, r := (total + size - 1) / size, (total + size - 1) % size;
    assert total + size - 1 == q * size + r;
    assert (q - 1) * size == q * size - size;
  }

  /** A page of a non-empty list is out of range exactly when its number is past the last
      page. */
  lemma {:induction false} OutOfRangeIffPastLastPage<T>(entries: seq<T>, page: nat, pageSize: nat, maxSize: nat)
    requires maxSize >= 1 && |entries| > 0
    ensures var size := Clamp(pageSize, 1, maxSize);
      Paginate(entries, page, pageSize, maxSize).OutOfRange? <==> Max(page, 1) > PageCount(|entries|, size)
  {
    var size := Clamp(pageSize, 1, maxSize);
    var p := Max(page, 1);
    var q := PageCount(|entries|, size);
    PageCountBounds(|entries|, size);
    if p - 1 >= q {
      MulMonotone(q, p - 1, size);
    } else {
      MulMonotone(p - 1, q - 1, size);
    }
  }

  /** An in-range page holds min(size, what is left) entries, taken in order. */
  lemma PageContents<T>(entries: seq<T>, page: nat, pageSize: nat, maxSize: nat)
    requires maxSize >= 1
    ensures var size, p := Clamp(pageSize, 1, maxSize), Max(page, 1);
      var r := Paginate(entries, page, pageSize, maxSize);
      && (r.Items? ==> |r.items| == Min(size, Max(|entries| - (p - 1) * size, 0)))
      && (r.Items? ==> forall k :: 0 <= k < |r.items| ==>
            (p - 1) * size + k < |entries| && r.items[k] == entries[(p - 1) * size + k])
      && (r.Items? && |entries| > 0 ==> |r.items| >= 1)
  {
    var size, p := Clamp(pageSize, 1, maxSize), Max(page, 1);
    var start, total := (p - 1) * size, |entries|;
    var r := Paginate(entries, page, pageSize, maxSize);
    if r.Items? {
      assert r.items == entries[Min(start, total)..Min(start + size, total)];
      if total > 0 {
        assert start < total;
      }
    }
  }

  /** Entry i sits on page i / size + 1, at position i % size. */
  lemma IndexOnItsPage<T>(entries: seq<T>, i: nat, pageSize: nat, maxSize: nat)
    requires maxSize >= 1 && i < |entries|
    ensures var size := Clamp(pageSize, 1, maxSize);
      var r := Paginate(entries, i / size + 1, pageSize, maxSize);
      r.Items? && i % size < |r.items| && r.items[i % size] == entries[i]
  {
    var size := Clamp(pageSize, 1, maxSize);
    var start := (i / size) * size;
    assert i == start + i % size;
  }

  // ---------------------------------------------------------------- flat listing

  /** What `read_dir` yields for one entry: its full path, whether it is a directory and
      its metadata length (0 when the metadata cannot be read). */
  datatype DirEntry = DirEntry(path: string, isDir: bool, size: nat)

  /** A listed item: name, kind, and size (0 for directories). */
  datatype Entry = Entry(name: string, isDir: bool, size: nat)

  /** Directories always, files only with a supported name; either way the entry's own
      path must pass `validate_path` (which applies the ignore rules). */
  predicate Listed(e: DirEntry, config: AppConfig, host: Host) {
    && (e.isDir || Sandbox.IsSupportedExtension(BaseName(e.path)))
    && Sandbox.ValidatePath(e.path, config, host).Ok?
  }

  function ToEntry(e: DirEntry): Entry {
    Entry(BaseName(e.path), e.isDir, if e.isDir then 0 else e.size)
  }

  /** The entries the loop keeps, in `read_dir` order. */
  function Collect(raw: seq<DirEntry>, config: AppConfig, host: Host): seq<Entry> {
    if raw == [] then []
    else
      var last := raw[|raw| - 1];
      Collect(raw[..|raw| - 1], config, host) + (if Listed(last, config, host) then [ToEntry(last)] else [])
  }

  method CollectEntries(raw: seq<DirEntry>, config: AppConfig, host: Host) returns (entries: seq<Entry>)
    ensures entries == Collect(raw, config, host)
  {
    entries := [];
    for i := 0 to |raw|
      invariant entries == Collect(raw[..i], config, host)
    {
      assert raw[..i + 1][..i] == raw[..i];
      var e := raw[i];
      var name := BaseName(e.path);
      if !e.isDir && !Sandbox.IsSupportedExtension(name) {
        continue;
      }
      if Sandbox.ValidatePath(e.path, config, host).Err? {
        continue;
      }
      var size := if e.isDir then 0 else e.size;
      entries := entries + [Entry(name, e.isDir, size)];
    }
    assert raw[..|raw|] == raw;
  }

  /** Exactly the listed entries of the directory appear. */
  lemma CollectMembers(raw: seq<DirEntry>, config: AppConfig, host: Host, e: Entry)
    ensures e in Collect(raw, config, host) <==> exists r :: r in raw && Listed(r, config, host) && ToEntry(r) == e
  {
    var keep := (r: DirEntry) => Listed(r, config, host);
    CollectIsKept(raw, config, host, keep);
    KeptMembers(raw, keep, e);
  }

  /** The entries of `raw` that `keep` accepts, as `ToEntry` shows them, in order. */
  function Kept(raw: seq<DirEntry>, keep: DirEntry -> bool): seq<Entry> {
    if raw == [] then []
    else
      var last := raw[|raw| - 1];
      Kept(raw[..|raw| - 1], keep) + (if keep(last) then [ToEntry(last)] else [])
  }

  lemma {:induction false} CollectIsKept(raw: seq<DirEntry>, config: AppConfig, host: Host, keep: DirEntry -> bool)
    requires forall r :: keep(r) == Listed(r, config, host)
    ensures Collect(raw, config, host) == Kept(raw, keep)
  {
    if raw != [] {
      CollectIsKept(raw[..|raw| - 1], config, host, keep);
    }
  }

  lemma {:induction false} KeptMembers(raw: seq<DirEntry>, keep: DirEntry -> bool, e: Entry)
    ensures e in Kept(raw, keep) <==> exists r :: r in raw && keep(r) && ToEntry(r) == e
  {
    if raw != [] {
      var init, last := raw[..|raw| - 1], raw[|raw| - 1];
      assert raw == init + [last];
      KeptMembers(init, keep, e);
      if e in Kept(init, keep) {
        var r :| r in init && keep(r) && ToEntry(r) == e;
        assert r in raw;
      }
      if exists r :: r in raw && keep(r) && ToEntry(r) == e {
        var r :| r in raw && keep(r) && ToEntry(r) == e;
        if r != last {
          assert r in init;
        }
      }
    }
  }

  /** The comparator: directories before files, otherwise by lowercased name; `sort_by`
      keeps equal entries in their `read_dir` order. */
  predicate EntryBefore(a: Entry, b: Entry) {
    (a.isDir && !b.isDir) || (a.isDir == b.isDir && Sorting.StrLe(Lower(a.name), Lower(b.name)))
  }

  lemma EntryBeforeTotal()
    ensures Sorting.Total(EntryBefore)
  {
    forall a: Entry, b: Entry ensures EntryBefore(a, b) || EntryBefore(b, a) {
      Sorting.StrLeTotal(Lower(a.name), Lower(b.name));
    }
  }

  function Arrange(entries: seq<Entry>): seq<Entry> {
    Sorting.SortBy(entries, EntryBefore)
  }

  /** The arranged list is the same entries, every directory before every file, and
      each run of one kind ordered by lowercased name. */
  lemma ArrangeOrder(entries: seq<Entry>)
    ensures var s := Arrange(entries);
      && multiset(s) == multiset(entries)
      && (forall i, j :: 0 <= i < j < |s| && !s[i].isDir ==> !s[j].isDir)
      && (forall i :: 0 <= i < |s| - 1 && s[i].isDir == s[i + 1].isDir ==> Sorting.StrLe(Lower(s[i].name), Lower(s[i + 1].name)))
  {
    var s := Arrange(entries);
    EntryBeforeTotal();
    Sorting.SortBySorted(entries, EntryBefore);
    forall i, j | 0 <= i < j < |s| && !s[i].isDir ensures !s[j].isDir {
      FilesStayFiles(s, i, j);
    }
  }

  lemma {:induction false} FilesStayFiles(s: seq<Entry>, i: nat, j: nat)
    requires Sorting.SortedBy(s, EntryBefore)
    requires i < j < |s| && !s[i].isDir
    ensures !s[j].isDir
    decreases j - i
  {
    assert EntryBefore(s[i], s[i + 1]);
    if i + 1 < j {
      FilesStayFiles(s, i + 1, j);
    }
  }

  // ---------------------------------------------------------------- tree listing

  /** One entry of the directory walk, in the walk's file-name order, with its depth
      below the listed directory (0 is the directory itself). */
  datatype WalkEntry = WalkEntry(path: string, depth: nat, isDir: bool, size: nat)

  datatype TreeItem = TreeItem(depth: nat, name: string, isDir: bool, size: nat)

  /** The walk goes no deeper than `max_depth` clamped to 1..10; the root is skipped and
      the same filter as the flat listing applies. */
  predicate TreeListed(e: WalkEntry, maxDepth: nat, config: AppConfig, host: Host) {
    && 1 <= e.depth <= Clamp(maxDepth, 1, 10)
    && (e.isDir || Sandbox.IsSupportedExtension(BaseName(e.path)))
    && Sandbox.ValidatePath(e.path, config, host).Ok?
  }

  function TreeItems(walk: seq<WalkEntry>, maxDepth: nat, config: AppConfig, host: Host): (r: seq<TreeItem>)
    ensures |r| <= |walk|
    ensures forall k :: 0 <= k < |r| ==> 1 <= r[k].depth <= Clamp(maxDepth, 1, 10)
  {
    if walk == [] then []
    else
      var last := walk[|walk| - 1];
      TreeItems(walk[..|walk| - 1], maxDepth, config, host)
        + (if TreeListed(last, maxDepth, config, host)
           then [TreeItem(last.depth, BaseName(last.path), last.isDir, if last.isDir then 0 else last.size)]
           else [])
  }

  lemma TreeItemsStep(walk: seq<WalkEntry>, i: nat, maxDepth: nat, config: AppConfig, host: Host)
    requires i < |walk|
    ensures var e := walk[i];
      TreeItems(walk[..i + 1], maxDepth, config, host) == TreeItems(walk[..i], maxDepth, config, host)
        + (if TreeListed(e, maxDepth, config, host)
           then [TreeItem(e.depth, BaseName(e.path), e.isDir, if e.isDir then 0 else e.size)]
           else [])
  {
    assert walk[..i + 1][..i] == walk[..i];
  }

  method CollectTree(walk: seq<WalkEntry>, maxDepth: nat, config: AppConfig, host: Host) returns (items: seq<TreeItem>)
    ensures items == TreeItems(walk, maxDepth, config, host)
  {
    var depthLimit := Clamp(maxDepth, 1, 10);
    items := [];
    for i := 0 to |walk|
      invariant items == TreeItems(walk[..i], maxDepth, config, host)
    {
      TreeItemsStep(walk, i, maxDepth, config, host);
      var e := walk[i];
      if e.depth == 0 || e.depth > depthLimit {
        continue;
      }
      var name := BaseName(e.path);
      if !e.isDir && !Sandbox.IsSupportedExtension(name) {
        continue;
      }
      if Sandbox.ValidatePath(e.path, config, host).Err? {
        continue;
      }
      items := items + [TreeItem(e.depth, name, e.isDir, if e.isDir then 0 else e.size)];
    }
    assert walk[..|walk|] == walk;
  }

  // ---------------------------------------------------------------- the tool

  datatype ListError =
    | Denied(reason: Sandbox.SandboxError)
    | NotADirectory(path: string)
    | ReadFailed

  datatype Listing =
    | Flat(entries: Page<Entry>)
    | Tree(depth: nat, items: Page<TreeItem>)

  /** `list_directory`: the path must be granted and a directory; a recursive request
      lists the walk (pages of at most 200), otherwise `read_dir` (pages of at most 100),
      whose failure is an error. */
  function ListDirectory(path: string, page: nat, pageSize: nat, recursive: bool, maxDepth: nat,
                         config: AppConfig, host: Host, readDir: Option<seq<DirEntry>>, walk: seq<WalkEntry>): Result<Listing, ListError>
  {
    match Sandbox.ValidatePath(path, config, host)
    case Err(e) => Err(Denied(e))
    case Ok(v) =>
      if v.canonicalPath !in host.dirs then Err(NotADirectory(path))
      else if recursive then
        Ok(Tree(Clamp(maxDepth, 1, 10), Paginate(TreeItems(walk, maxDepth, config, host), page, pageSize, 200)))
      else match readDir
        case None => Err(ReadFailed)
        case Some(raw) => Ok(Flat(Paginate(Arrange(Collect(raw, config, host)), page, pageSize, 100)))
  }

  /** A listing only happens for a granted directory, and a flat page never holds more
      than 100 entries nor a tree page more than 200. */
  lemma ListingBounds(path: string, page: nat, pageSize: nat, recursive: bool, maxDepth: nat,
                      config: AppConfig, host: Host, readDir: Option<seq<DirEntry>>, walk: seq<WalkEntry>)
    ensures var r := ListDirectory(path, page, pageSize, recursive, maxDepth, config, host, readDir, walk);
      && (r.Ok? ==> Sandbox.ValidatePath(path, config, host).Ok?
                    && Sandbox.ValidatePath(path, config, host).value.canonicalPath in host.dirs)
      && (r.Ok? && r.value.Flat? && r.value.entries.Items? ==> |r.value.entries.items| <= 100)
      && (r.Ok? && r.value.Tree? && r.value.items.Items? ==> |r.value.items.items| <= 200)
      && (r.Ok? ==> (r.value.Tree? <==> recursive))
  {
    var v := Sandbox.ValidatePath(path, config, host);
    if v.Ok? && v.value.canonicalPath in host.dirs {
      if recursive {
        var items := TreeItems(walk, maxDepth, config, host);
        assert ListDirectory(path, page, pageSize, recursive, maxDepth, config, host, readDir, walk)
          == Ok(Tree(Clamp(maxDepth, 1, 10), Paginate(items, page, pageSize, 200)));
      } else if readDir.Some? {
        var entries := Arrange(Collect(readDir.value, config, host));
        assert ListDirectory(path, page, pageSize, recursive, maxDepth, config, host, readDir, walk)
          == Ok(Flat(Paginate(entries, page, pageSize, 100)));
      }
    }
  }

  /** The out-of-range report for a page past the end, e.g. page 4 of 5 entries by 2. */
  lemma OutOfRangeExample(entries: seq<Entry>)
    requires |entries| == 5
    ensures Paginate(entries, 4, 2, 100) == OutOfRange(4, 5, 3)
    ensures Paginate(entries, 3, 2, 100).Items? && Paginate(entries, 3, 2, 100).items == entries[4..]
  {
  }
}
