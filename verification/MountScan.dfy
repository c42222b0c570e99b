/** Mounting without a checkpoint: the scan that reads the pages newest first and rebuilds
    the files from their tags alone. */
module MountScan {
  import opened Basics
  import opened BlockTable
  import opened FlashLog

  /** What the scan knows of an object so far; `limit` is shrink_size, None standing for the
      all-ones value it starts with. */
  datatype Found = Found(hdr: Option<Addr>, size: nat, limit: Option<nat>, chunks: map<nat, Addr>)

  const NOTHING_FOUND := Found(None, 0, None, map[])

  type Scan = map<nat, Found>

  function Get(s: Scan, o: nat): Found { if o in s then s[o] else NOTHING_FOUND }

  predicate InLimit(base: nat, limit: Option<nat>) { limit.None? || base < limit.value }

  function Lower(limit: Option<nat>, size: nat): Option<nat> {
    if limit.None? || size < limit.value then Some(size) else limit
  }

  /** yaffs2_scan_chunk for a page in use. */
  function ScanPage(s: Scan, a: Addr, p: Page, d: nat): Scan {
    var f := Get(s, p.obj);
    match p
    case Data(o, c, n, _, _) =>
      var endpos := Base(d, c) + n;
      if !InLimit(Base(d, c), f.limit) then s[o := f]
      else s[o := f.(chunks := if c in f.chunks then f.chunks else f.chunks[c := a],
                     size := if f.hdr.None? && f.size < endpos then endpos else f.size)]
    case Header(o, size, shrink, _, _) =>
      if f.hdr.Some? then s[o := f.(limit := if shrink then Lower(f.limit, size) else f.limit)]
      else s[o := f.(hdr := Some(a), size := if f.size < size then size else f.size,
                     limit := Lower(f.limit, size))]
  }

  /** The scan of the pages listed, in order. */
  function ScanLog(f: map<Addr, Page>, log: seq<Addr>, d: nat): Scan
    requires forall a :: a in log ==> a in f
  {
    if log == [] then map[]
    else
      var k := |log| - 1;
      ScanPage(ScanLog(f, log[..k], d), log[k], f[log[k]], d)
  }

  /** `log` lists the pages on flash, each once, newest first. */
  ghost predicate ScanOrder(f: map<Addr, Page>, log: seq<Addr>) {
    && (forall a :: a in f <==> a in log)
    && (forall i, j :: 0 <= i < j < |log| ==> Newer(f, log[i], log[j]))
  }

  // ----- what there is to find of object `o` -----

  /** The newest header was written after page `a` and records a size that does not reach it. */
  predicate CutOff(v: Dev, o: nat, a: Addr) {
    && o in v.files && a in v.flash && v.flash[a].Data? && IsHeader(v.flash, v.files[o].hdr, o)
    && Newer(v.flash, v.files[o].hdr, a)
    && v.flash[v.files[o].hdr].size <= Base(v.chunkBytes, v.flash[a].id)
  }

  /** The chunk map without the chunks so cut off. */
  function Kept(v: Dev, o: nat): map<nat, Addr>
    requires o in v.files
  {
    map c | c in v.files[o].chunks && !CutOff(v, o, v.files[o].chunks[c]) :: v.files[o].chunks[c]
  }

  predicate EndBy(v: Dev, a: Addr, size: nat) {
    a in v.flash && v.flash[a].Data? && Base(v.chunkBytes, v.flash[a].id) + v.flash[a].nBytes <= size
  }

  /** Chunk `c` was written after the newest header and ends at `e`. */
  predicate TopAt(v: Dev, o: nat, c: nat, e: nat) {
    && o in v.files && c in v.files[o].chunks && IsData(v.flash, v.files[o].chunks[c], o, c)
    && Newer(v.flash, v.files[o].chunks[c], v.files[o].hdr)
    && Base(v.chunkBytes, c) + v.flash[v.files[o].chunks[c]].nBytes == e
  }

  /** `e` is the size in the newest header, or where the data written after it ends if that is more. */
  ghost predicate Reads(v: Dev, o: nat, e: nat) {
    && o in v.files && IsHeader(v.flash, v.files[o].hdr, o) && v.flash[v.files[o].hdr].size <= e
    && (forall d :: AfterHeader(v, d) && v.flash[d].obj == o ==> EndBy(v, d, e))
    && (e == v.flash[v.files[o].hdr].size || exists c :: TopAt(v, o, c, e))
  }

  // ----- what the scan knows of it once it has seen the pages in `seen` -----

  /** Header `h` limits the file to its recorded size when it is scanned: it is the file's
      newest header or a shrink header. */
  predicate Limits(v: Dev, o: nat, h: Addr) {
    IsHeader(v.flash, h, o) && o in v.files && (h == v.files[o].hdr || v.flash[h].shrink)
  }

  ghost predicate ChunksKnown(v: Dev, seen: set<Addr>, o: nat, f: Found) {
    forall c, a :: Holds(f, c, a) <==> Mapped(v.files, o, c, a) && a in seen && !CutOff(v, o, a)
  }

  predicate Holds(f: Found, c: nat, a: Addr) { c in f.chunks && f.chunks[c] == a }

  predicate HdrKnown(v: Dev, seen: set<Addr>, o: nat, f: Found) {
    && f.hdr == (if o in v.files && v.files[o].hdr in seen then Some(v.files[o].hdr) else None)
    && (f.hdr.None? ==> f.limit.None?)
  }

  /** Every limiting header seen is accounted for, and no mapped chunk yet to come is cut. */
  ghost predicate LimitKnown(v: Dev, seen: set<Addr>, o: nat, f: Found) {
    && (forall h :: h in seen && Limits(v, o, h) ==> !InLimit(v.flash[h].size, f.limit))
    && (forall c, a :: Mapped(v.files, o, c, a) && a !in seen && !CutOff(v, o, a) ==>
          InLimit(Base(v.chunkBytes, c), f.limit))
  }

  ghost predicate SizeSoFar(v: Dev, seen: set<Addr>, o: nat, f: Found, e: nat) {
    if f.hdr.Some? then f.size == e
    else f.size <= e && forall d :: d in seen && d in v.flash && v.flash[d].Data? && v.flash[d].obj == o ==>
        EndBy(v, d, f.size)
  }

  ghost predicate Progress(v: Dev, seen: set<Addr>, o: nat, f: Found, e: nat) {
    && ChunksKnown(v, seen, o, f) && HdrKnown(v, seen, o, f) && LimitKnown(v, seen, o, f)
    && SizeSoFar(v, seen, o, f, e)
  }

  /** `seen` holds exactly the pages newer than `x`. */
  ghost predicate UpTo(f: map<Addr, Page>, seen: set<Addr>, x: Addr) {
    x in f && x !in seen && forall a :: a in seen <==> Newer(f, a, x)
  }

  /** What the theorem asks of the file: no truncation of it is under way and no chunk is in the cache alone. */
  ghost predicate Settled(v: Dev, pend: Pending, o: nat, e: nat) {
    o in v.files && !Cuts(pend, o) && v.files[o].late == {} && Reads(v, o, e)
  }

  // ----- one page -----

  lemma OtherObject(v: Dev, seen: set<Addr>, x: Addr, o: nat, f: Found, e: nat)
    requires Index(v) && Hdrs(v) && x in v.flash && v.flash[x].obj != o
    requires Progress(v, seen, o, f, e)
    ensures Progress(v, seen + {x}, o, f, e)
  {
    forall c, a | Mapped(v.files, o, c, a) ensures a != x { assert Entry(v, o, c, a); }
  }

  function After(f: Found, a: Addr, p: Page, d: nat): Found {
    Get(ScanPage(map[p.obj := f], a, p, d), p.obj)
  }

  lemma TotalOrder(v: Dev, a: Addr, b: Addr)
    requires Pages(v) && SeqNumbers(v.t) && a in v.flash && b in v.flash && a != b
    ensures Newer(v.flash, a, b) || Newer(v.flash, b, a)
  {
    assert a.block != b.block || a.page != b.page;
  }

  /** A header that cuts page `x` off has been seen, and keeps it out. */
  lemma CutOffRejected(v: Dev, seen: set<Addr>, x: Addr, o: nat, f: Found)
    requires UpTo(v.flash, seen, x) && LimitKnown(v, seen, o, f) && CutOff(v, o, x)
    ensures !InLimit(Base(v.chunkBytes, v.flash[x].id), f.limit)
  {
    var h := v.files[o].hdr;
    assert h in seen && Limits(v, o, h);
  }

  /** A mapped page is taken unless it is cut off: nothing newer has its tags. */
  lemma MappedPage(v: Dev, seen: set<Addr>, x: Addr, f: Found)
    requires Index(v) && UpTo(v.flash, seen, x)
    requires v.flash[x].Data? && Mapped(v.files, v.flash[x].obj, v.flash[x].id, x)
    requires ChunksKnown(v, seen, v.flash[x].obj, f) && LimitKnown(v, seen, v.flash[x].obj, f)
    ensures var o := v.flash[x].obj; var g := After(f, x, v.flash[x], v.chunkBytes);
      ChunksKnown(v, seen + {x}, o, g) && LimitKnown(v, seen + {x}, o, g)
  {
    var o, c := v.flash[x].obj, v.flash[x].id;
    var g := After(f, x, v.flash[x], v.chunkBytes);
    assert Entry(v, o, c, x);
    if CutOff(v, o, x) {
      CutOffRejected(v, seen, x, o, f);
    } else {
      assert InLimit(Base(v.chunkBytes, c), f.limit);
      assert c !in f.chunks by {
        if c in f.chunks { assert Holds(f, c, f.chunks[c]); }
      }
    }
    forall e, a ensures Holds(g, e, a) <==> Mapped(v.files, o, e, a) && a in seen + {x} && !CutOff(v, o, a) {
      assert Holds(f, e, a) <==> Mapped(v.files, o, e, a) && a in seen && !CutOff(v, o, a);
      if Mapped(v.files, o, e, a) { assert Entry(v, o, e, a); }
    }
  }

  /** A dead page is rejected: its position is already filled, or a newer header cuts it. */
  lemma DeadRejected(v: Dev, pend: Pending, seen: set<Addr>, x: Addr, f: Found)
    requires Hdrs(v) && Newest(v) && Index(v) && DeadKnown(v, pend) && Sizes(v, pend) && UpTo(v.flash, seen, x)
    requires FlashLog.Dead(v, x) && v.flash[x].obj in v.files
    requires !Cuts(pend, v.flash[x].obj) && v.files[v.flash[x].obj].late == {}
    requires ChunksKnown(v, seen, v.flash[x].obj, f) && LimitKnown(v, seen, v.flash[x].obj, f)
    ensures v.flash[x].id in f.chunks || !InLimit(Base(v.chunkBytes, v.flash[x].id), f.limit)
  {
    var o, c := v.flash[x].obj, v.flash[x].id;
    assert !Excused(v, pend, x) && Justified(v, pend, x);
    if Superseded(v, x) {
      var m := v.files[o].chunks[c];
      assert Mapped(v.files, o, c, m) && IsData(v.flash, x, o, c) && Newer(v.flash, m, x);
      if CutOff(v, o, m) {
        assert CutOff(v, o, x) by { assert Entry(v, o, c, m); }
        CutOffRejected(v, seen, x, o, f);
      } else {
        assert Holds(f, c, m);
      }
    } else if PastEnd(v, x) && !Opens(pend, o) {
      assert HeaderWithin(v, pend, o);
      CutOffRejected(v, seen, x, o, f);
    } else {
      var q :| Shields(v, q, x);
      assert q in seen && IsHeader(v.flash, q, o);
      assert Limits(v, o, q);
    }
  }

  lemma DeadPage(v: Dev, seen: set<Addr>, x: Addr, f: Found)
    requires Index(v) && Hdrs(v) && FlashLog.Dead(v, x)
    requires ChunksKnown(v, seen, v.flash[x].obj, f) && LimitKnown(v, seen, v.flash[x].obj, f)
    requires v.flash[x].id in f.chunks || !InLimit(Base(v.chunkBytes, v.flash[x].id), f.limit)
    ensures var o := v.flash[x].obj; var g := After(f, x, v.flash[x], v.chunkBytes);
      ChunksKnown(v, seen + {x}, o, g) && LimitKnown(v, seen + {x}, o, g)
  {
    var o := v.flash[x].obj;
    var g := After(f, x, v.flash[x], v.chunkBytes);
    assert g.chunks == f.chunks && g.limit == f.limit;
    forall e, a | Mapped(v.files, o, e, a) ensures a != x { assert Entry(v, o, e, a); }
  }

  /** Until the header is met, the size found so far is where the data seen ends. */
  lemma DataSize(v: Dev, seen: set<Addr>, x: Addr, f: Found, e: nat)
    requires Pages(v) && SeqNumbers(v.t) && Hdrs(v) && UpTo(v.flash, seen, x)
    requires v.flash[x].Data? && Reads(v, v.flash[x].obj, e)
    requires HdrKnown(v, seen, v.flash[x].obj, f) && SizeSoFar(v, seen, v.flash[x].obj, f, e)
    ensures var o := v.flash[x].obj; var g := After(f, x, v.flash[x], v.chunkBytes);
      HdrKnown(v, seen + {x}, o, g) && SizeSoFar(v, seen + {x}, o, g, e)
  {
    var o := v.flash[x].obj;
    var h := v.files[o].hdr;
    TotalOrder(v, x, h);
    if Newer(v.flash, x, h) { assert AfterHeader(v, x) && EndBy(v, x, e); }
  }

  /** A limiting header cuts no mapped chunk that is still to be scanned and not cut off. */
  lemma LimitHolds(v: Dev, seen: set<Addr>, x: Addr, o: nat, f: Found, g: Found)
    requires Index(v) && Uncut(v) && Pages(v) && SeqNumbers(v.t) && UpTo(v.flash, seen, x)
    requires LimitKnown(v, seen, o, f) && IsHeader(v.flash, x, o)
    requires g.limit == if Limits(v, o, x) then Lower(f.limit, v.flash[x].size) else f.limit
    ensures LimitKnown(v, seen + {x}, o, g)
  {
    forall e, a | Mapped(v.files, o, e, a) && a !in seen + {x} && !CutOff(v, o, a)
      ensures InLimit(Base(v.chunkBytes, e), g.limit)
    {
      assert Entry(v, o, e, a);
      TotalOrder(v, a, x);
      if Limits(v, o, x) && x != v.files[o].hdr { assert Shrinks(v, o, x); }
    }
  }

  /** Where the newest header is met, all the data written after it has been seen. */
  lemma SizeReadBack(v: Dev, seen: set<Addr>, x: Addr, f: Found, e: nat)
    requires UpTo(v.flash, seen, x) && Index(v)
    requires v.flash[x].Header? && v.flash[x].obj in v.files && v.files[v.flash[x].obj].hdr == x
    requires Reads(v, v.flash[x].obj, e) && SizeSoFar(v, seen, v.flash[x].obj, f, e) && f.hdr.None?
    ensures (if f.size < v.flash[x].size then v.flash[x].size else f.size) == e
  {
    var o := v.flash[x].obj;
    if e != v.flash[x].size {
      var c :| TopAt(v, o, c, e);
      var a := v.files[o].chunks[c];
      assert a in seen && EndBy(v, a, f.size);
    }
  }

  /** The first header met is the newest: it fixes the size. */
  lemma NewestHeader(v: Dev, seen: set<Addr>, x: Addr, f: Found, g: Found, e: nat)
    requires Index(v) && UpTo(v.flash, seen, x)
    requires v.flash[x].Header? && v.flash[x].obj in v.files && v.files[v.flash[x].obj].hdr == x
    requires Progress(v, seen, v.flash[x].obj, f, e)
    requires g == After(f, x, v.flash[x], v.chunkBytes)
    requires LimitKnown(v, seen + {x}, v.flash[x].obj, g) && g.size == e
    ensures Progress(v, seen + {x}, v.flash[x].obj, g, e)
  {
    var o := v.flash[x].obj;
    assert f.hdr.None?;
    forall c, a | Mapped(v.files, o, c, a) ensures a != x { assert Entry(v, o, c, a); }
  }

  /** Any other header only lowers the limit, and only if it is a shrink header. */
  lemma StaleHeader(v: Dev, seen: set<Addr>, x: Addr, f: Found, g: Found, e: nat)
    requires Index(v) && x in v.flash
    requires v.flash[x].Header? && v.flash[x].obj in v.files && v.files[v.flash[x].obj].hdr != x
    requires Progress(v, seen, v.flash[x].obj, f, e) && f.hdr.Some?
    requires g == After(f, x, v.flash[x], v.chunkBytes)
    requires LimitKnown(v, seen + {x}, v.flash[x].obj, g)
    ensures Progress(v, seen + {x}, v.flash[x].obj, g, e)
  {
    var o := v.flash[x].obj;
    forall c, a | Mapped(v.files, o, c, a) ensures a != x { assert Entry(v, o, c, a); }
  }

  lemma HeaderMet(v: Dev, seen: set<Addr>, x: Addr, f: Found)
    requires Hdrs(v) && Newest(v) && UpTo(v.flash, seen, x)
    requires v.flash[x].Header? && v.flash[x].obj in v.files && HdrKnown(v, seen, v.flash[x].obj, f)
    ensures f.hdr.Some? <==> v.files[v.flash[x].obj].hdr != x
    ensures After(f, x, v.flash[x], v.chunkBytes).limit
         == if Limits(v, v.flash[x].obj, x) then Lower(f.limit, v.flash[x].size) else f.limit
    ensures f.hdr.None? ==>
      After(f, x, v.flash[x], v.chunkBytes).size == if f.size < v.flash[x].size then v.flash[x].size else f.size
  {
    var o := v.flash[x].obj;
    if v.files[o].hdr != x { assert IsHeader(v.flash, x, o) && Newer(v.flash, v.files[o].hdr, x); }
  }

  lemma HeaderPage(v: Dev, seen: set<Addr>, x: Addr, f: Found, e: nat)
    requires Index(v) && Hdrs(v) && Newest(v) && Uncut(v) && UpTo(v.flash, seen, x)
    requires Pages(v) && SeqNumbers(v.t) && v.flash[x].Header? && v.flash[x].obj in v.files
    requires Reads(v, v.flash[x].obj, e) && Progress(v, seen, v.flash[x].obj, f, e)
    ensures Progress(v, seen + {x}, v.flash[x].obj, After(f, x, v.flash[x], v.chunkBytes), e)
  {
    hide Index, Hdrs, Newest, Uncut, Pages, SeqNumbers, ChunksKnown, HdrKnown, LimitKnown, SizeSoFar, Limits;
    hide After, Reads;
    var o := v.flash[x].obj;
    var g := After(f, x, v.flash[x], v.chunkBytes);
    HeaderMet(v, seen, x, f);
    LimitHolds(v, seen, x, o, f, g);
    if v.files[o].hdr == x {
      SizeReadBack(v, seen, x, f, e);
      NewestHeader(v, seen, x, f, g, e);
    } else {
      StaleHeader(v, seen, x, f, g, e);
    }
  }

  // ----- the whole scan -----

  lemma DataPage(v: Dev, pend: Pending, seen: set<Addr>, x: Addr, f: Found, e: nat)
    requires Index(v) && Hdrs(v) && Newest(v) && DeadKnown(v, pend) && Sizes(v, pend) && UpTo(v.flash, seen, x)
    requires x in v.flash && Pages(v) && SeqNumbers(v.t) && v.flash[x].Data? && Settled(v, pend, v.flash[x].obj, e)
    requires Progress(v, seen, v.flash[x].obj, f, e)
    ensures Progress(v, seen + {x}, v.flash[x].obj, After(f, x, v.flash[x], v.chunkBytes), e)
  {
    hide Index, Hdrs, Newest, DeadKnown, Sizes, UpTo, Pages, SeqNumbers, Reads;
    hide ChunksKnown, HdrKnown, LimitKnown, SizeSoFar, After, Mapped;
    DataSize(v, seen, x, f, e);
    if Mapped(v.files, v.flash[x].obj, v.flash[x].id, x) {
      MappedPage(v, seen, x, f);
    } else {
      DeadRejected(v, pend, seen, x, f);
      DeadPage(v, seen, x, f);
    }
  }

  lemma ScanStep(v: Dev, pend: Pending, seen: set<Addr>, x: Addr, s: Scan, o: nat, e: nat)
    requires FlashLog.Inv(v, {}, pend) && UpTo(v.flash, seen, x) && Settled(v, pend, o, e)
    requires Progress(v, seen, o, Get(s, o), e)
    ensures Progress(v, seen + {x}, o, Get(ScanPage(s, x, v.flash[x], v.chunkBytes), o), e)
  {
    var p := v.flash[x];
    StepShape(s, x, p, v.chunkBytes, o);
    StepFacts(v, pend);
    hide FlashLog.Inv, Progress, UpTo, Index, Hdrs, Newest, Uncut, DeadKnown, Sizes, Pages, SeqNumbers;
    hide After, ScanPage, Reads;
    if o != p.obj {
      OtherObject(v, seen, x, o, Get(s, o), e);
    } else if p.Data? {
      DataPage(v, pend, seen, x, Get(s, o), e);
    } else {
      HeaderPage(v, seen, x, Get(s, o), e);
    }
  }

  lemma StepShape(s: Scan, x: Addr, p: Page, d: nat, o: nat)
    ensures Get(ScanPage(s, x, p, d), o) == if o == p.obj then After(Get(s, p.obj), x, p, d) else Get(s, o)
    ensures ScanPage(s, x, p, d).Keys == s.Keys + {p.obj}
  {
  }

  lemma StepFacts(v: Dev, pend: Pending)
    requires FlashLog.Inv(v, {}, pend)
    ensures SeqNumbers(v.t) && Index(v) && Hdrs(v) && Newest(v) && Uncut(v) && DeadKnown(v, pend) && Sizes(v, pend)
    ensures Pages(v)
  {
  }

  function Elements(log: seq<Addr>): set<Addr> { set a | a in log }

  lemma UpToPrefix(f: map<Addr, Page>, log: seq<Addr>, k: nat)
    requires ScanOrder(f, log) && k < |log|
    ensures log[k] in f && UpTo(f, Elements(log[..k]), log[k])
    ensures Elements(log[..k + 1]) == Elements(log[..k]) + {log[k]}
  {
    assert log[..k + 1] == log[..k] + [log[k]];
    forall a | Newer(f, a, log[k]) ensures a in log[..k] {
      var i :| 0 <= i < |log| && log[i] == a;
      assert log[..k][i] == a;
    }
    forall a | a in log[..k] ensures Newer(f, a, log[k]) {
      var i :| 0 <= i < k && log[..k][i] == a;
    }
  }

  lemma PrefixOnFlash(f: map<Addr, Page>, log: seq<Addr>, k: nat)
    requires ScanOrder(f, log) && 0 < k <= |log|
    ensures forall a :: a in log[..k] || a in log[..k - 1] ==> a in f
    ensures log[k - 1] in f
  {
  }

  lemma {:induction false} ScanPrefix(v: Dev, pend: Pending, log: seq<Addr>, k: nat, o: nat, e: nat)
    requires FlashLog.Inv(v, {}, pend) && ScanOrder(v.flash, log) && k <= |log| && Settled(v, pend, o, e)
    ensures forall a :: a in log[..k] ==> a in v.flash
    ensures Progress(v, Elements(log[..k]), o, Get(ScanLog(v.flash, log[..k], v.chunkBytes), o), e)
    decreases k
  {
    hide FlashLog.Inv, Progress, ScanPage, Elements, UpTo, Get, ScanOrder, Settled;
    if k == 0 {
      ScanEmpty(v, o, e);
      assert log[..0] == [];
    } else {
      PrefixOnFlash(v.flash, log, k);
      var x := log[k - 1];
      UpToPrefix(v.flash, log, k - 1);
      ScanPrefix(v, pend, log, k - 1, o, e);
      ScanStep(v, pend, Elements(log[..k - 1]), x, ScanLog(v.flash, log[..k - 1], v.chunkBytes), o, e);
      assert log[..k][..k - 1] == log[..k - 1];
    }
  }

  lemma ScanEmpty(v: Dev, o: nat, e: nat)
    ensures Elements([]) == {} && Progress(v, {}, o, NOTHING_FOUND, e)
    ensures Get(ScanLog(v.flash, [], v.chunkBytes), o) == NOTHING_FOUND
  {
  }

  lemma {:induction false} ScanKeys(f: map<Addr, Page>, log: seq<Addr>, d: nat, o: nat)
    requires forall a :: a in log ==> a in f
    ensures o in ScanLog(f, log, d) <==> exists a :: a in log && f[a].obj == o
  {
    if log != [] {
      var k := |log| - 1;
      ScanKeys(f, log[..k], d, o);
      assert log == log[..k] + [log[k]];
      StepShape(ScanLog(f, log[..k], d), log[k], f[log[k]], d, o);
    }
  }

  /** What a mount finds of file `o`: its newest header, size `e`, and the chunks not cut off. */
  predicate Finds(v: Dev, s: Scan, o: nat, e: nat) {
    && o in s && o in v.files
    && s[o].hdr == Some(v.files[o].hdr) && s[o].size == e && s[o].chunks == Kept(v, o)
  }

  /** What a mount has to bring back. */
  predicate Recovered(v: Dev, s: Scan, o: nat) {
    && o in s && o in v.files
    && s[o].hdr == Some(v.files[o].hdr) && s[o].size == v.files[o].size && s[o].chunks == v.files[o].chunks
  }

  /** The mount theorem: from any state that satisfies the invariant, scanning the flash newest page
      first finds of a file exactly its newest header, the size its newest pages reach and every mapped
      chunk but those the newest header cuts off. */
  lemma MountFinds(v: Dev, pend: Pending, log: seq<Addr>, o: nat, e: nat)
    requires FlashLog.Inv(v, {}, pend) && ScanOrder(v.flash, log) && Settled(v, pend, o, e)
    ensures Finds(v, ScanLog(v.flash, log, v.chunkBytes), o, e)
  {
    hide FlashLog.Inv, Progress, ScanLog, Index, Hdrs, Pages, Reads;
    assert log[..|log|] == log;
    ScanPrefix(v, pend, log, |log|, o, e);
    StepFacts(v, pend);
    FilesSeen(v, log, o);
    ScanKeys(v.flash, log, v.chunkBytes, o);
    FoundEqual(v, Elements(log), o, Get(ScanLog(v.flash, log, v.chunkBytes), o), e);
  }

  /** No file appears that is not there. */
  lemma ScanFindsOnlyFiles(v: Dev, log: seq<Addr>)
    requires Pages(v) && ScanOrder(v.flash, log)
    ensures ScanLog(v.flash, log, v.chunkBytes).Keys <= v.files.Keys
  {
    hide ScanLog;
    forall o | o in ScanLog(v.flash, log, v.chunkBytes) ensures o in v.files {
      ScanKeys(v.flash, log, v.chunkBytes, o);
      var a :| a in log && v.flash[a].obj == o;
    }
  }

  /** The file comes back whole exactly when its newest header cuts no chunk off and its size can be read. */
  lemma RecoversIff(v: Dev, s: Scan, o: nat, e: nat)
    requires Finds(v, s, o, e)
    ensures Recovered(v, s, o) <==>
      e == v.files[o].size && forall c :: c in v.files[o].chunks ==> !CutOff(v, o, v.files[o].chunks[c])
  {
    if Kept(v, o) == v.files[o].chunks {
      forall c | c in v.files[o].chunks ensures !CutOff(v, o, v.files[o].chunks[c]) { assert c in Kept(v, o); }
    }
  }

  lemma FilesSeen(v: Dev, log: seq<Addr>, o: nat)
    requires Index(v) && Hdrs(v) && ScanOrder(v.flash, log) && o in v.files
    ensures v.files[o].hdr in log && v.flash[v.files[o].hdr].obj == o
    ensures forall c, a :: Mapped(v.files, o, c, a) ==> a in Elements(log)
  {
    forall c, a | Mapped(v.files, o, c, a) ensures a in Elements(log) { assert Entry(v, o, c, a); }
  }

  lemma FoundEqual(v: Dev, seen: set<Addr>, o: nat, f: Found, e: nat)
    requires o in v.files && Progress(v, seen, o, f, e) && v.files[o].hdr in seen
    requires forall c, a :: Mapped(v.files, o, c, a) ==> a in seen
    ensures f.hdr == Some(v.files[o].hdr) && f.size == e && f.chunks == Kept(v, o)
  {
    var kept := Kept(v, o);
    forall c | c in f.chunks ensures c in kept && kept[c] == f.chunks[c] {
      assert Holds(f, c, f.chunks[c]);
    }
    forall c | c in kept ensures c in f.chunks {
      assert Mapped(v.files, o, c, v.files[o].chunks[c]);
      assert Holds(f, c, v.files[o].chunks[c]);
    }
  }
}
