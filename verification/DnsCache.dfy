/** The message cache on the heap: records behind pointers, sections as slices of an array. Writes
    store a deep copy without EDNS0 pseudo-records; reads share the records of the stored copy but
    nothing else. */
module DnsCache {
  import opened Names
  import opened DnsModel

  /** The header of a message. */
  datatype Header = Header(
    id: nat, response: bool, opcode: nat, authoritative: bool, truncated: bool, recursionDesired: bool,
    recursionAvailable: bool, zero: bool, authenticatedData: bool, checkingDisabled: bool, rcode: nat)

  /** A whole message as a value. */
  datatype Packet = Packet(
    header: Header, compress: bool, question: Option<Question>, answer: seq<RR>, ns: seq<RR>, extra: seq<RR>)

  /** A packet as it is stored. */
  function WithoutPseudo(v: Packet): Packet {
    v.(extra := WithoutOPT(v.extra))
  }

  /** The part of a packet that the resolver looks at. */
  function View(v: Packet): Msg {
    Msg(v.header.rcode, v.question, v.answer, v.ns, v.extra)
  }

  /** Storing a packet is storing what the resolver sees of it. */
  lemma StoresView(v: Packet)
    ensures View(WithoutPseudo(v)) == Stored(View(v))
  {
  }

  /** A record behind a pointer. */
  class Cell {
    var rr: RR

    constructor (rr: RR)
      ensures this.rr == rr
    {
      this.rr := rr;
    }
  }

  /** A slice header: the array it is backed by and how much of it is in use. */
  datatype Slice = Slice(base: array<Cell?>, len: nat)

  /** The slice holds these records, in cells of the footprint. */
  ghost predicate Holds(s: Slice, rrs: seq<RR>, footprint: set<object>)
    reads s.base, footprint
  {
    && s.len == |rrs| <= s.base.Length
    && forall i :: 0 <= i < s.len ==> s.base[i] != null && s.base[i] in footprint && (s.base[i] as Cell).rr == rrs[i]
  }

  class Message {
    var header: Header
    var compress: bool
    var question: Option<Question>
    var answer: Slice
    var ns: Slice
    var extra: Slice

    constructor (header: Header, compress: bool, question: Option<Question>, answer: Slice, ns: Slice, extra: Slice)
      ensures this.header == header && this.compress == compress && this.question == question
      ensures this.answer == answer && this.ns == ns && this.extra == extra
    {
      this.header, this.compress, this.question := header, compress, question;
      this.answer, this.ns, this.extra := answer, ns, extra;
    }

    /** What a holder of the message may change besides the records: the struct and its arrays. */
    ghost function Own(): set<object>
      reads this
    {
      {this, answer.base, ns.base, extra.base}
    }

    ghost predicate Is(v: Packet, footprint: set<object>)
      reads this, answer.base, ns.base, extra.base, footprint
    {
      && header == v.header && compress == v.compress && question == v.question
      && Holds(answer, v.answer, footprint) && Holds(ns, v.ns, footprint) && Holds(extra, v.extra, footprint)
    }
  }

  // ---- Copying ------------------------------------------------------------------------------

  /** A slice over new cells with the same records. */
  method DeepCopySlice(s: Slice, ghost rrs: seq<RR>, ghost footprint: set<object>)
    returns (t: Slice, ghost cells: set<object>)
    requires Holds(s, rrs, footprint)
    ensures fresh(t.base) && fresh(cells) && t.base !in cells && Holds(t, rrs, cells)
  {
    var base := new Cell?[s.len](_ => null);
    t := Slice(base, s.len);
    cells := {};
    for i := 0 to s.len
      invariant fresh(cells) && base !in cells
      invariant forall k :: 0 <= k < i ==> base[k] != null && base[k] in cells && (base[k] as Cell).rr == rrs[k]
      invariant Holds(s, rrs, footprint)
    {
      var cell := new Cell((s.base[i] as Cell).rr);
      base[i] := cell;
      cells := cells + {cell};
    }
  }

  /** A slice over a new array that points to the same cells. */
  method ShallowCopySlice(s: Slice, ghost rrs: seq<RR>, ghost footprint: set<object>) returns (t: Slice)
    requires Holds(s, rrs, footprint)
    ensures fresh(t.base) && t.base.Length == t.len && Holds(t, rrs, footprint)
  {
    var base := new Cell?[s.len];
    for i := 0 to s.len
      invariant forall k :: 0 <= k < i ==> base[k] == s.base[k]
      invariant Holds(s, rrs, footprint)
    {
      base[i] := s.base[i];
    }
    t := Slice(base, s.len);
  }

  method DeepCopy(m: Message, ghost v: Packet, ghost footprint: set<object>) returns (cp: Message, ghost cells: set<object>)
    requires m.Is(v, footprint)
    ensures fresh(cp.Own()) && fresh(cells) && cp.Own() !! cells && cp.Is(v, cells)
    ensures cp.extra.base != cp.answer.base && cp.extra.base != cp.ns.base
  {
    var answer, a := DeepCopySlice(m.answer, v.answer, footprint);
    var ns, b := DeepCopySlice(m.ns, v.ns, footprint);
    var extra, c := DeepCopySlice(m.extra, v.extra, footprint);
    cp := new Message(m.header, m.compress, m.question, answer, ns, extra);
    cells := a + b + c;
  }

  method ShallowCopy(m: Message, ghost v: Packet, ghost footprint: set<object>) returns (cp: Message)
    requires m.Is(v, footprint)
    ensures fresh(cp.Own()) && cp.Is(v.(question := None), footprint)
    ensures cp.answer.base.Length == cp.answer.len && cp.ns.base.Length == cp.ns.len
    ensures cp.extra.base.Length == cp.extra.len
  {
    var answer := ShallowCopySlice(m.answer, v.answer, footprint);
    var ns := ShallowCopySlice(m.ns, v.ns, footprint);
    var extra := ShallowCopySlice(m.extra, v.extra, footprint);
    cp := new Message(m.header, m.compress, None, answer, ns, extra);
  }

  // ---- Stripping ----------------------------------------------------------------------------

  /** Compacts the slice in place: what is left are the records other than EDNS0 pseudo-records,
      in order, and the rest of the array is cleared. */
  method StripOPT(s: Slice, ghost rrs: seq<RR>, ghost footprint: set<object>) returns (t: Slice)
    requires Holds(s, rrs, footprint) && s.base !in footprint
    modifies s.base
    ensures t.base == s.base && Holds(t, WithoutOPT(rrs), footprint)
    ensures forall i :: t.len <= i < s.len ==> s.base[i] == null
  {
    var n := Compact(s, rrs, footprint);
    for i := n to s.len
      invariant Holds(Slice(s.base, n), WithoutOPT(rrs), footprint)
      invariant forall k :: n <= k < i ==> s.base[k] == null
    {
      s.base[i] := null;
    }
    t := Slice(s.base, n);
  }

  lemma WithoutOPTNext(rrs: seq<RR>, i: nat)
    requires i < |rrs|
    ensures WithoutOPT(rrs[..i + 1]) == WithoutOPT(rrs[..i]) + if rrs[i].OPT? then [] else [rrs[i]]
  {
    assert rrs[..i + 1][..i] == rrs[..i];
  }

  /** Moves the i-th pointer down to the end of the records kept so far. */
  method KeepCell(base: array<Cell?>, n: nat, i: nat, ghost kept: seq<RR>, ghost rr: RR, ghost footprint: set<object>)
    requires Holds(Slice(base, n), kept, footprint) && base !in footprint && n <= i < base.Length
    requires base[i] != null && base[i] in footprint && (base[i] as Cell).rr == rr
    modifies base
    ensures Holds(Slice(base, n + 1), kept + [rr], footprint)
    ensures forall k :: i < k < base.Length ==> base[k] == old(base[k])
  {
    base[n] := base[i];
  }

  method Compact(s: Slice, ghost rrs: seq<RR>, ghost footprint: set<object>) returns (n: nat)
    requires Holds(s, rrs, footprint) && s.base !in footprint
    modifies s.base
    ensures n <= s.len && Holds(Slice(s.base, n), WithoutOPT(rrs), footprint)
  {
    n := 0;
    ghost var kept := [];
    for i := 0 to s.len
      invariant n <= i && kept == WithoutOPT(rrs[..i])
      invariant Holds(Slice(s.base, n), kept, footprint)
      invariant forall k :: i <= k < s.len ==> s.base[k] != null && s.base[k] in footprint && (s.base[k] as Cell).rr == rrs[k]
    {
      WithoutOPTNext(rrs, i);
      if !(s.base[i] as Cell).rr.OPT? {
        KeepCell(s.base, n, i, kept, rrs[i], footprint);
        kept := kept + [rrs[i]];
        n := n + 1;
      }
    }
    assert rrs[..s.len] == rrs;
  }

  // ---- The cache ----------------------------------------------------------------------------

  /** A stored message: it and all it is made of are in the footprint. */
  ghost predicate EntryOk(m: Message, v: Packet, footprint: set<object>)
    reads footprint
  {
    m in footprint && m.Own() <= footprint && m.Is(v, footprint)
  }

  lemma EntryStays(m: Message, v: Packet, footprint: set<object>, more: set<object>)
    requires EntryOk(m, v, footprint) && footprint <= more
    ensures EntryOk(m, v, more)
  {
  }

  ghost predicate KeyOk(store: map<string, Message>, contents: map<string, Packet>, footprint: set<object>, k: string)
    reads footprint
  {
    (k in store <==> k in contents) && (k in store && k in contents ==> EntryOk(store[k], contents[k], footprint))
  }

  ghost predicate EntriesOk(store: map<string, Message>, contents: map<string, Packet>, footprint: set<object>)
    reads footprint
  {
    forall k {:trigger KeyOk(store, contents, footprint, k)} :: KeyOk(store, contents, footprint, k)
  }

  lemma EntryJoins(store: map<string, Message>, contents: map<string, Packet>, footprint: set<object>,
                   key: string, m: Message, v: Packet, all: set<object>)
    requires EntriesOk(store, contents, footprint) && EntryOk(m, v, all)
    ensures EntriesOk(store[key := m], contents[key := v], footprint + all)
  {
    EntryStays(m, v, all, footprint + all);
    var store', contents', more := store[key := m], contents[key := v], footprint + all;
    forall k ensures KeyOk(store', contents', more, k) {
      assert KeyOk(store, contents, footprint, k);
      if k in store && k != key {
        EntryStays(store[k], contents[k], footprint, more);
      }
    }
  }

  /** The copy that is stored: new throughout, and without EDNS0 pseudo-records. */
  method CopyToStore(m: Message, ghost v: Packet, ghost parts: set<object>) returns (cp: Message, ghost all: set<object>)
    requires m.Is(v, parts)
    ensures fresh(all) && EntryOk(cp, WithoutPseudo(v), all)
  {
    ghost var cells;
    cp, cells := DeepCopy(m, v, parts);
    var extra := StripOPT(cp.extra, v.extra, cells);
    cp.extra := extra;
    all := cp.Own() + cells;
    assert Holds(cp.answer, v.answer, cells) && Holds(cp.ns, v.ns, cells);
  }

  class Cache {
    var store: map<string, Message>

    /** What was last written under each key and has not expired. */
    ghost var contents: map<string, Packet>
    /** Everything the stored messages are made of. */
    ghost var footprint: set<object>

    ghost predicate Valid()
      reads this, footprint
    {
      this !in footprint && EntriesOk(store, contents, footprint)
    }

    constructor ()
      ensures Valid() && contents == map[] && footprint == {}
    {
      store, contents, footprint := map[], map[], {};
    }

    /** Stores a copy that shares nothing with the message. */
    method SetCacheCopy(key: string, m: Message, ghost v: Packet, ghost parts: set<object>)
      requires Valid() && m.Is(v, parts)
      modifies this
      ensures Valid() && contents == old(contents)[key := WithoutPseudo(v)]
      ensures old(footprint) <= footprint && fresh(footprint - old(footprint))
    {
      var cp, all := CopyToStore(m, v, parts);
      EntryJoins(store, contents, footprint, key, cp, WithoutPseudo(v), all);
      assert this !in footprint + all;
      store := store[key := cp];
      contents := contents[key := WithoutPseudo(v)];
      footprint := footprint + all;
    }

    /** Finds exactly what was last written. The copy's struct and arrays are new; its records are
        the stored ones. */
    method GetCacheCopy(key: string) returns (r: Option<Message>)
      requires Valid()
      ensures r.Some? <==> key in contents
      ensures r.Some? ==> fresh(r.value.Own()) && r.value.Is(contents[key].(question := None), footprint)
    {
      assert KeyOk(store, contents, footprint, key);
      if key !in store {
        return None;
      }
      var cp := ShallowCopy(store[key], contents[key], footprint);
      r := Some(cp);
    }

    method Expire(key: string)
      requires Valid()
      modifies this`store, this`contents
      ensures Valid() && contents == old(contents) - {key}
    {
      ghost var store', contents' := store - {key}, contents - {key};
      forall k ensures KeyOk(store', contents', footprint, k) {
        assert KeyOk(store, contents, footprint, k);
      }
      store, contents := store - {key}, contents - {key};
    }
  }

  /** A writer that may do anything afterwards to its message and to every record of it that it does
      not share with the cache, as it does when it stores again what it has read. */
  method WriteAndScribble(c: Cache, key: string, m: Message, ghost v: Packet, ghost parts: set<object>)
    requires c.Valid() && m.Is(v, parts) && c !in parts && c !in m.Own() && m.Own() !! c.footprint
    modifies c, parts - c.footprint, m.Own()
    ensures c.Valid() && c.contents == old(c.contents)[key := WithoutPseudo(v)]
  {
    ghost var author := (parts - c.footprint) + m.Own();
    c.SetCacheCopy(key, m, v, parts);
    modify author;
  }

  /** A reader that may do anything to the struct and arrays it was given. That touches nothing that
      existed before the read. */
  method ReadAndScribble(c: Cache, key: string)
    requires c.Valid()
    ensures c.Valid()
  {
    var copy := c.GetCacheCopy(key);
    if copy.Some? {
      modify copy.value.Own();
    }
  }

  /** Isolation. After a write, its author may do anything to the message and its own records, and a
      reader anything to the struct and arrays it was given: later reads of that key return the
      message as written, and reads of other keys what they would have returned. */
  method Isolation(c: Cache, key: string, m: Message, ghost v: Packet, ghost parts: set<object>, other: string)
    returns (r: Option<Message>, s: Option<Message>)
    requires c.Valid() && m.Is(v, parts) && c !in parts && c !in m.Own() && m.Own() !! c.footprint
    modifies c, parts - c.footprint, m.Own()
    ensures c.Valid()
    ensures r.Some? && r.value.Is(WithoutPseudo(v).(question := None), c.footprint)
    ensures other != key ==>
              (if other in old(c.contents) then
                 s.Some? && s.value.Is(old(c.contents)[other].(question := None), c.footprint)
               else s.None?)
  {
    WriteAndScribble(c, key, m, v, parts);
    ReadAndScribble(c, key);
    r := c.GetCacheCopy(key);
    s := c.GetCacheCopy(other);
  }
}
