/**
 * The page cache of src/pager.rs: a file of fixed-size pages and one cache slot per
 * page. A cached page is a shared object (`Arc<Mutex<Page>>`); every handle to it sees
 * the same bytes, and `flush` writes cached pages back at their place in the file.
 * The file is a byte sequence; shared page objects live in a heap indexed by handle.
 */
module Paging {
  import opened Optional
  import opened Bytes

  /** `Page::PAGE_SIZE`. */
  const PAGE_SIZE: nat := 4096

  /** `MAX_PAGES`: the number of cache slots and of pages a new file holds. */
  const MAX_PAGES: nat := 100

  /** The identity of one shared page object. */
  type Handle = nat

  /**
   * The pager: the file's bytes, whether its file handle allows reading, the cache slots,
   * the contents of every page object ever created, and the next unused handle.
   */
  datatype Pager = Pager(file: seq<byte>, readable: bool, slots: seq<Option<Handle>>, heap: map<Handle, seq<byte>>, next: Handle)

  /** Where page `i` sits in the file. */
  function PageStart(i: nat): nat {
    i * PAGE_SIZE
  }

  /**
   * The pager's invariant: one slot per page, every cached handle names a page object of
   * `PAGE_SIZE` bytes that was read from within the file, no two slots share an object,
   * and `next` is fresh.
   */
  predicate Valid(p: Pager) {
    && |p.slots| == MAX_PAGES
    && (forall h :: h in p.heap ==> h < p.next && |p.heap[h]| == PAGE_SIZE)
    && (forall i :: 0 <= i < MAX_PAGES && p.slots[i].Some? ==>
          p.slots[i].value in p.heap && PageStart(i) + PAGE_SIZE <= |p.file|)
    && (forall i, j :: 0 <= i < j < MAX_PAGES && p.slots[i].Some? && p.slots[j].Some? ==>
          p.slots[i].value != p.slots[j].value)
  }

  /** `Pager::new` on an existing file, opened for reading and writing, with every slot empty. */
  function Open(file: seq<byte>): (r: Pager)
    ensures Valid(r) && r.file == file && r.readable
    ensures forall i :: 0 <= i < MAX_PAGES ==> r.slots[i] == None
  {
    Pager(file, true, seq(MAX_PAGES, _ => None), map[], 0)
  }

  /**
   * `Pager::new` on a missing file as written: the file is created with `MAX_PAGES` zeroed
   * pages through `File::create`, whose handle is open for writing only.
   */
  function CreateAsWritten(): (r: Pager)
    ensures Valid(r) && !r.readable
    ensures |r.file| == MAX_PAGES * PAGE_SIZE
    ensures forall k :: 0 <= k < |r.file| ==> r.file[k] == 0
    ensures forall i :: 0 <= i < MAX_PAGES ==> r.slots[i] == None
  {
    Pager(Zeros(MAX_PAGES * PAGE_SIZE), false, seq(MAX_PAGES, _ => None), map[], 0)
  }

  /**
   * `Pager::new` on a missing file with a read-write handle: the same zeroed file as
   * `CreateAsWritten`, but a pager that can read its pages back.
   */
  function Create(): (r: Pager)
    ensures Valid(r) && r.readable
    ensures r == CreateAsWritten().(readable := true)
    ensures |r.file| == MAX_PAGES * PAGE_SIZE
    ensures forall k :: 0 <= k < |r.file| ==> r.file[k] == 0
    ensures forall i :: 0 <= i < MAX_PAGES ==> r.slots[i] == None
  {
    Open(Zeros(MAX_PAGES * PAGE_SIZE))
  }

  const INDEX_PANIC := "Index too large"
  /** `read_exact(..).unwrap()` on a file that ends before the page does. */
  const READ_PANIC := "failed to fill whole buffer"
  /** `read_exact(..).unwrap()` on a handle open for writing only: the operating system's error. */
  const BAD_HANDLE_PANIC := "Bad file descriptor"
  /** `self.pages[page_index]` with `page_index` past the last slot. */
  const SLOT_PANIC := "index out of bounds"

  /** What `get_page` does: the pager afterwards and the handle returned, or a panic. */
  datatype Fetch = Fetched(pager: Pager, handle: Handle) | Panicked(message: string)

  /** Reading page `i` into a new shared object put in slot `i`. */
  function Load(p: Pager, i: nat): (r: Fetch)
    requires Valid(p) && i < MAX_PAGES && p.slots[i].None?
    ensures r.Fetched? <==> p.readable && PageStart(i) + PAGE_SIZE <= |p.file|
    ensures r.Panicked? ==> r.message == (if p.readable then READ_PANIC else BAD_HANDLE_PANIC)
    ensures r.Fetched? ==>
      && Valid(r.pager)
      && r.handle !in p.heap
      && r.pager.file == p.file
      && r.pager.slots == p.slots[i := Some(r.handle)]
      && r.pager.heap == p.heap[r.handle := p.file[PageStart(i)..PageStart(i) + PAGE_SIZE]]
  {
    if !p.readable then Panicked(BAD_HANDLE_PANIC)
    else if PageStart(i) + PAGE_SIZE > |p.file| then Panicked(READ_PANIC)
    else
      var h := p.next;
      Fetched(p.(slots := p.slots[i := Some(h)], heap := p.heap[h := p.file[PageStart(i)..PageStart(i) + PAGE_SIZE]], next := h + 1), h)
  }

  /**
   * `Pager::get_page` as written: the guard rejects only indices above `MAX_PAGES`, so
   * index `MAX_PAGES` goes on to read past the last page or store past the last slot.
   */
  function GetPageAsWritten(p: Pager, i: nat): (r: Fetch)
    requires Valid(p)
    ensures r.Panicked? && r.message == INDEX_PANIC <==> i > MAX_PAGES
    ensures i == MAX_PAGES ==> r.Panicked?
    ensures r.Fetched? ==>
      && i < MAX_PAGES && Valid(r.pager) && r.pager.file == p.file
      && r.pager.readable == p.readable && r.pager.slots[i] == Some(r.handle)
    ensures i < MAX_PAGES && p.slots[i].Some? ==> r.Fetched? && r.pager == p
    ensures i < MAX_PAGES && p.slots[i].None? ==>
      && (r.Panicked? <==> !p.readable || PageStart(i) + PAGE_SIZE > |p.file|)
      && (r.Panicked? ==> r.message == (if p.readable then READ_PANIC else BAD_HANDLE_PANIC))
  {
    if i > MAX_PAGES then Panicked(INDEX_PANIC)
    else if i < MAX_PAGES && p.slots[i].Some? then Fetched(p, p.slots[i].value)
    else if !p.readable then Panicked(BAD_HANDLE_PANIC)
    else if PageStart(i) + PAGE_SIZE > |p.file| then Panicked(READ_PANIC)
    else if i == MAX_PAGES then Panicked(SLOT_PANIC)
    else Load(p, i)
  }

  /** Index `MAX_PAGES` passes the guard, and the call then fails somewhere else. */
  lemma {:induction false} GuardAdmitsOnePastEnd(p: Pager)
    requires Valid(p)
    ensures GetPageAsWritten(p, MAX_PAGES).Panicked?
    ensures GetPageAsWritten(p, MAX_PAGES).message != INDEX_PANIC
  {
  }

  /**
   * `Pager::get_page` with the guard rejecting every index without a slot: a cached page
   * is returned as is; otherwise it is read from the file into slot `i`.
   */
  function GetPage(p: Pager, i: nat): (r: Fetch)
    requires Valid(p)
    ensures r.Panicked? && r.message == INDEX_PANIC <==> i >= MAX_PAGES
    ensures i < MAX_PAGES && p.slots[i].Some? ==> r == Fetched(p, p.slots[i].value)
    ensures r.Fetched? ==> Valid(r.pager) && r.pager.file == p.file && r.pager.readable == p.readable && r.pager.slots[i] == Some(r.handle)
    ensures i < MAX_PAGES && p.slots[i].None? ==>
      && (r.Panicked? <==> !p.readable || PageStart(i) + PAGE_SIZE > |p.file|)
      && (r.Panicked? ==> r.message == (if p.readable then READ_PANIC else BAD_HANDLE_PANIC))
    ensures i < MAX_PAGES && p.slots[i].None? && r.Fetched? ==>
      && r.handle !in p.heap
      && r.pager.slots == p.slots[i := Some(r.handle)]
      && r.pager.heap == p.heap[r.handle := p.file[PageStart(i)..PageStart(i) + PAGE_SIZE]]
  {
    if i >= MAX_PAGES then Panicked(INDEX_PANIC)
    else if p.slots[i].Some? then Fetched(p, p.slots[i].value)
    else Load(p, i)
  }

  /**
   * A pager from `CreateAsWritten` can never read a page: every `get_page` below
   * `MAX_PAGES` panics at `read_exact`, since no slot is ever filled.
   */
  lemma {:induction false} CreatedPagerCannotRead(i: nat)
    requires i < MAX_PAGES
    ensures GetPageAsWritten(CreateAsWritten(), i) == Panicked(BAD_HANDLE_PANIC)
    ensures GetPage(Create(), i).Fetched?
  {
  }

  /** Below `MAX_PAGES` the corrected guard changes nothing. */
  lemma {:induction false} GetPageAgreesBelowMax(p: Pager, i: nat)
    requires Valid(p) && i < MAX_PAGES
    ensures GetPage(p, i) == GetPageAsWritten(p, i)
  {
  }

  /** Writing `page` through handle `h` (the `DerefMut` of the shared page). */
  function Store(p: Pager, h: Handle, page: seq<byte>): (r: Pager)
    requires Valid(p) && h in p.heap && |page| == PAGE_SIZE
    ensures Valid(r)
    ensures h in r.heap && r.heap[h] == page
    ensures r.file == p.file && r.slots == p.slots
    ensures forall g :: g in p.heap && g != h ==> g in r.heap && r.heap[g] == p.heap[g]
  {
    p.(heap := p.heap[h := page])
  }

  /** Byte `k` of the file once every cached page has been written back. */
  function FlushedByte(p: Pager, k: nat): byte
    requires Valid(p) && k < |p.file|
  {
    var i := k / PAGE_SIZE;
    if i < MAX_PAGES && p.slots[i].Some? then p.heap[p.slots[i].value][k % PAGE_SIZE] else p.file[k]
  }

  /** `file` with `page` written at the place of page `i`. */
  function WriteAt(file: seq<byte>, i: nat, page: seq<byte>): (r: seq<byte>)
    requires |page| == PAGE_SIZE && PageStart(i) + PAGE_SIZE <= |file|
    ensures |r| == |file|
    ensures forall k :: 0 <= k < |file| ==>
      r[k] == (if k / PAGE_SIZE == i then page[k % PAGE_SIZE] else file[k])
  {
    var r := file[..PageStart(i)] + page + file[PageStart(i) + PAGE_SIZE..];
    assert forall k :: 0 <= k < |file| ==> (PageStart(i) <= k < PageStart(i) + PAGE_SIZE <==> k / PAGE_SIZE == i);
    r
  }

  /** The loop of `flush` over slots `0 .. n`. */
  function FlushUpTo(p: Pager, n: nat): (r: seq<byte>)
    requires Valid(p) && n <= MAX_PAGES
    ensures |r| == |p.file|
    ensures forall k :: 0 <= k < |p.file| ==>
      r[k] == (if k / PAGE_SIZE < n then FlushedByte(p, k) else p.file[k])
    decreases n
  {
    if n == 0 then p.file
    else
      var prev := FlushUpTo(p, n - 1);
      match p.slots[n - 1]
      case None => prev
      case Some(h) => WriteAt(prev, n - 1, p.heap[h])
  }

  /**
   * `Pager::flush`: each cached page is written at its place in the file; bytes of pages
   * never cached stay as they were, and the cache is left alone.
   */
  function Flush(p: Pager): (r: Pager)
    requires Valid(p)
    ensures Valid(r)
    ensures r.slots == p.slots && r.heap == p.heap && r.next == p.next
    ensures |r.file| == |p.file|
    ensures forall k :: 0 <= k < |p.file| ==> r.file[k] == FlushedByte(p, k)
  {
    var f := FlushUpTo(p, MAX_PAGES);
    assert forall k :: 0 <= k < |p.file| ==> k / PAGE_SIZE < MAX_PAGES || FlushedByte(p, k) == p.file[k];
    p.(file := f)
  }

  /** A second flush with no write in between changes nothing. */
  lemma {:induction false} FlushIdempotent(p: Pager)
    requires Valid(p)
    ensures Flush(Flush(p)) == Flush(p)
  {
    var q := Flush(p);
    assert forall k :: 0 <= k < |q.file| ==> FlushedByte(q, k) == FlushedByte(p, k);
  }

  /** After a flush the page of a cached slot in the file is that slot's page object. */
  lemma {:induction false} FlushWritesPage(p: Pager, i: nat)
    requires Valid(p) && i < MAX_PAGES && p.slots[i].Some?
    ensures Flush(p).file[PageStart(i)..PageStart(i) + PAGE_SIZE] == p.heap[p.slots[i].value]
  {
    var file := Flush(p).file;
    var page := p.heap[p.slots[i].value];
    FlushedPageBytes(p, i);
    SliceMatches(file, PageStart(i), page);
  }

  /** Byte `j` of page `i` after a flush is byte `j` of the cached page, for every `j`. */
  lemma {:induction false} FlushedPageBytes(p: Pager, i: nat)
    requires Valid(p) && i < MAX_PAGES && p.slots[i].Some?
    ensures PageStart(i) + PAGE_SIZE <= |Flush(p).file|
    ensures |p.heap[p.slots[i].value]| == PAGE_SIZE
    ensures AgreesAt(Flush(p).file, PageStart(i), p.heap[p.slots[i].value])
  {
    forall j | 0 <= j < PAGE_SIZE
      ensures Flush(p).file[PageStart(i) + j] == p.heap[p.slots[i].value][j]
    {
      FlushedByteInPage(p, i, j);
    }
  }

  /** Byte `j` of page `i` after a flush is byte `j` of the cached page. */
  lemma {:induction false} FlushedByteInPage(p: Pager, i: nat, j: nat)
    requires Valid(p) && i < MAX_PAGES && p.slots[i].Some? && j < PAGE_SIZE
    ensures PageStart(i) + j < |p.file|
    ensures FlushedByte(p, PageStart(i) + j) == p.heap[p.slots[i].value][j]
  {
    PageIndex(i, j);
  }

  /** Byte `j` of page `i` sits at page `i`, offset `j`. */
  lemma {:induction false} PageIndex(i: nat, j: nat)
    requires j < PAGE_SIZE
    ensures (PageStart(i) + j) / PAGE_SIZE == i && (PageStart(i) + j) % PAGE_SIZE == j
  {
  }

  /** `file` holds `page` byte by byte from `start` on. */
  predicate AgreesAt(file: seq<byte>, start: nat, page: seq<byte>) {
    start + |page| <= |file| && forall j :: 0 <= j < |page| ==> file[start + j] == page[j]
  }

  /** A run of `file` that agrees with `page` byte by byte is `page`. */
  lemma {:induction false} SliceMatches(file: seq<byte>, start: nat, page: seq<byte>)
    requires AgreesAt(file, start, page)
    ensures file[start..start + |page|] == page
  {
    forall j | 0 <= j < |page|
      ensures file[start..start + |page|][j] == page[j]
    {
      assert file[start..start + |page|][j] == file[start + j];
    }
  }

  /**
   * Handles from repeated `get_page(i)` alias one page: a write through the first is
   * what the second returns and what `flush` puts in the file.
   */
  lemma {:induction false} WriteVisibleThroughAlias(p: Pager, i: nat, page: seq<byte>)
    requires Valid(p) && i < MAX_PAGES && |page| == PAGE_SIZE
    requires GetPage(p, i).Fetched?
    ensures var first := GetPage(p, i);
      var written := Store(first.pager, first.handle, page);
      var second := GetPage(written, i);
      && second.Fetched?
      && second.handle == first.handle
      && second.pager.heap[second.handle] == page
      && Flush(second.pager).file[PageStart(i)..PageStart(i) + PAGE_SIZE] == page
  {
    var first := GetPage(p, i);
    var written := Store(first.pager, first.handle, page);
    FlushWritesPage(written, i);
  }
}
