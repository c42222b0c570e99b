/** Any sequence of file operations through the cache behaves as on plain byte arrays. */
module FileRefinement {
  import opened Basics
  import opened FileCache
  import opened FileBytes
  import opened FileDevice

  // ----- the plain files -----

  type Plain = map<nat, Bytes>

  datatype Op =
    | Write(o: nat, offset: nat, buf: Bytes, through: bool, small: bool)
    | Read(o: nat, offset: nat, n: nat)
    | Flush(o: nat)
    | Resize(o: nat, size: nat, small: bool)

  function Get(f: Plain, o: nat): Bytes { if o in f then f[o] else [] }

  function At(c: Bytes, i: nat): bv8 { if i < |c| then c[i] else 0 }

  function Overwrite(c: Bytes, offset: nat, b: Bytes): Bytes {
    seq(if offset + |b| > |c| then offset + |b| else |c|,
        i requires i >= 0 => if offset <= i < offset + |b| then b[i - offset] else At(c, i))
  }

  function SetLength(c: Bytes, n: nat): Bytes { seq(n, i requires i >= 0 => At(c, i)) }

  function Slice(c: Bytes, offset: nat, n: nat): Bytes { seq(n, i requires i >= 0 => At(c, offset + i)) }

  function Apply(f: Plain, op: Op): Plain {
    match op
    case Write(o, offset, buf, _, _) => f[o := Overwrite(Get(f, o), offset, buf)]
    case Resize(o, size, _) => f[o := SetLength(Get(f, o), size)]
    case _ => f
  }

  function Output(f: Plain, op: Op): Bytes { if op.Read? then Slice(Get(f, op.o), op.offset, op.n) else [] }

  function Outputs(f: Plain, ops: seq<Op>): seq<Bytes>
    decreases |ops|
  {
    if ops == [] then [] else [Output(f, ops[0])] + Outputs(Apply(f, ops[0]), ops[1..])
  }

  function Final(f: Plain, ops: seq<Op>): Plain
    decreases |ops|
  {
    if ops == [] then f else Final(Apply(f, ops[0]), ops[1..])
  }

  // ----- the stored files show the plain ones -----

  /** Lengths and bytes agree, zeros past the end. */
  ghost predicate Shows(s: Store, f: Plain) {
    && FileCache.Inv(s) && s.page > 0
    && (forall o :: SizeOf(s, o) == |Get(f, o)|)
    && (forall o, i: nat :: ByteAt(s, o, i) == At(Get(f, o), i))
  }

  lemma ShowsTail(s: Store, f: Plain)
    requires Shows(s, f)
    ensures Sized(s) && ZeroTail(s)
  {
    hide ByteAt;
  }

  lemma WriteShows(s: Store, t: Store, f: Plain, op: Op)
    requires op.Write? && Shows(s, f) && FileCache.Inv(t) && Sized(s) && Sized(t)
    requires Replaced(s, t, op.o, op.offset, op.buf)
    requires forall p :: p != op.o ==> SizeOf(t, p) == SizeOf(s, p)
    requires SizeOf(t, op.o) == if op.offset + |op.buf| > SizeOf(s, op.o) then op.offset + |op.buf| else SizeOf(s, op.o)
    ensures Shows(t, Apply(f, op))
  {
    hide ByteAt, FileCache.Inv;
    var g := Apply(f, op);
    forall o, i: nat ensures ByteAt(t, o, i) == At(Get(g, o), i) {
      assert ByteAt(s, o, i) == At(Get(f, o), i);
    }
  }

  lemma ResizeShows(s: Store, t: Store, f: Plain, op: Op)
    requires op.Resize? && Shows(s, f) && FileCache.Inv(t) && Sized(s) && Sized(t)
    requires Truncated(s, t, op.o, op.size) && SizeOf(t, op.o) == op.size
    requires forall p :: p != op.o ==> SizeOf(t, p) == SizeOf(s, p)
    ensures Shows(t, Apply(f, op))
  {
    hide ByteAt, FileCache.Inv;
    var g := Apply(f, op);
    forall o, i: nat ensures ByteAt(t, o, i) == At(Get(g, o), i) {
      assert ByteAt(s, o, i) == At(Get(f, o), i);
    }
  }

  lemma SameShows(s: Store, t: Store, f: Plain)
    requires Shows(s, f) && FileCache.Inv(t) && Same(s, t)
    ensures Shows(t, f)
  {
    forall o, i: nat ensures ByteAt(t, o, i) == ByteAt(s, o, i) { SameBytes(s, t, o, i); }
  }

  /** One operation through the cache. */
  method Perform(d: Files, op: Op, ghost f: Plain) returns (out: Bytes)
    requires Shows(d.View(), f)
    modifies d, d.cache
    ensures Shows(d.View(), Apply(f, op)) && out == Output(f, op)
  {
    hide ByteAt, Chunk, Same, FileCache.Inv;
    ghost var s := d.View();
    ShowsTail(s, f);
    match op
    case Write(o, offset, buf, through, small) =>
      d.WrFile(o, offset, buf, through, small);
      WriteShows(s, d.View(), f, op);
      out := [];
    case Read(o, offset, n) =>
      out := d.ReadFile(o, offset, n);
      SameShows(s, d.View(), f);
    case Flush(o) =>
      d.FlushFile(o);
      SameShows(s, d.View(), f);
      out := [];
    case Resize(o, size, small) =>
      d.Resize(o, size, small);
      ResizeShows(s, d.View(), f, op);
      out := [];
  }

  /** Every sequence of operations reads what plain byte arrays would give and leaves the same files. */
  method PerformAll(d: Files, ops: seq<Op>, ghost f: Plain) returns (outs: seq<Bytes>)
    requires Shows(d.View(), f)
    modifies d, d.cache
    ensures outs == Outputs(f, ops) && Shows(d.View(), Final(f, ops))
  {
    hide Shows, Apply, Output;
    outs := [];
    var i := 0;
    ghost var g := f;
    assert ops[0..] == ops;
    while i < |ops|
      invariant 0 <= i <= |ops| && Shows(d.View(), g)
      invariant Outputs(f, ops) == outs + Outputs(g, ops[i..]) && Final(f, ops) == Final(g, ops[i..])
    {
      assert ops[i..][1..] == ops[i + 1..];
      var out := Perform(d, ops[i], g);
      assert outs + ([out] + Outputs(Apply(g, ops[i]), ops[i + 1..])) ==
          (outs + [out]) + Outputs(Apply(g, ops[i]), ops[i + 1..]);
      outs := outs + [out];
      g := Apply(g, ops[i]);
      i := i + 1;
    }
  }

  /** A fresh device shows no files. */
  lemma FreshShows(s: Store)
    requires FileCache.Inv(s) && s.page > 0 && s.sizes == map[] && ZeroTail(s)
    ensures Shows(s, map[])
  {
    hide ByteAt;
  }
}
