/** The lookup key of the in-kernel fast path: a bounded parser over packet bytes on one side, an
    encoder of names on the other, and when the two build the same key. Names are in wire form,
    as in sections 2.3.3, 2.3.4 and 3.1 of RFC 1035. */
module XdpKey {
  import opened Names

  type Byte = x: int | 0 <= x < 256

  const MAX_QNAME_LEN := 255
  const MAX_QNAME_LABELS := 127

  type WireLabel = s: seq<Byte> | 1 <= |s| <= 63 witness [97]

  type WireName = seq<WireLabel>

  /** The length-prefixed labels, without the root's zero byte. */
  function Labels(n: WireName): seq<Byte> {
    if n == [] then [] else [|n[0]|] + n[0] + Labels(n[1..])
  }

  /** Names of at most 255 octets. */
  ghost predicate IsName(n: WireName) {
    |Labels(n)| + 1 <= 255
  }

  function Wire(n: WireName): seq<Byte> {
    Labels(n) + [0]
  }

  function Lower(b: Byte): Byte {
    if 65 <= b <= 90 then b + 32 else b
  }

  function LowerAll(s: seq<Byte>): (r: seq<Byte>)
    ensures |r| == |s|
  {
    seq(|s|, i requires 0 <= i < |s| => Lower(s[i]))
  }

  function LowerName(n: WireName): (r: WireName)
    ensures |r| == |n|
  {
    if n == [] then [] else [LowerAll(n[0])] + LowerName(n[1..])
  }

  // ---- Letter case ---------------------------------------------------------------------------

  /** The same byte, or a capital letter and its small one (section 2.3.3 of RFC 1035). */
  predicate SameLetter(a: Byte, b: Byte) {
    a == b || (65 <= a <= 90 && b == a + 32) || (65 <= b <= 90 && a == b + 32)
  }

  predicate SameLetters(s: seq<Byte>, t: seq<Byte>) {
    |s| == |t| && forall i :: 0 <= i < |s| ==> SameLetter(s[i], t[i])
  }

  /** The same labels in any letter case. */
  predicate SameName(n: WireName, m: WireName) {
    |n| == |m| && forall i :: 0 <= i < |n| ==> SameLetters(n[i], m[i])
  }

  predicate HasNoCapital(s: seq<Byte>) {
    forall i :: 0 <= i < |s| ==> !(65 <= s[i] <= 90)
  }

  lemma LowerIsCanonical(s: seq<Byte>, t: seq<Byte>)
    ensures SameLetters(LowerAll(s), s) && HasNoCapital(LowerAll(s))
    ensures LowerAll(s) == LowerAll(t) <==> SameLetters(s, t)
  {
    if LowerAll(s) == LowerAll(t) {
      forall i | 0 <= i < |s| ensures SameLetter(s[i], t[i]) {
        assert LowerAll(s)[i] == LowerAll(t)[i];
      }
    }
  }

  lemma {:induction false} LowerNameIsCanonical(n: WireName, m: WireName)
    ensures LowerName(n) == LowerName(m) <==> SameName(n, m)
  {
    if |n| != |m| || n == [] {
    } else {
      LowerIsCanonical(n[0], m[0]);
      LowerNameIsCanonical(n[1..], m[1..]);
      assert LowerName(n)[1..] == LowerName(n[1..]) && LowerName(m)[1..] == LowerName(m[1..]);
      assert forall i :: 0 <= i < |n| - 1 ==> n[1..][i] == n[i + 1] && m[1..][i] == m[i + 1];
      if SameName(n, m) {
        assert SameName(n[1..], m[1..]);
      }
      if SameLetters(n[0], m[0]) && SameName(n[1..], m[1..]) {
        forall i | 0 <= i < |n| ensures SameLetters(n[i], m[i]) {
          assert i > 0 ==> SameLetters(n[1..][i - 1], m[1..][i - 1]);
        }
      }
    }
  }

  // ---- Labels are a prefix code -------------------------------------------------------------

  lemma {:induction false} LabelsSnoc(n: WireName, l: WireLabel)
    ensures Labels(n + [l]) == Labels(n) + [|l|] + l
  {
    if n == [] {
      assert (n + [l])[1..] == [];
    } else {
      LabelsSnoc(n[1..], l);
      assert (n + [l])[1..] == n[1..] + [l];
    }
  }

  lemma {:induction false} LabelsLength(n: WireName)
    ensures 2 * |n| <= |Labels(n)|
  {
    if n == [] {
    } else {
      LabelsLength(n[1..]);
    }
  }

  /** Two names whose labels begin the same bytes: the one with fewer labels begins the other. */
  lemma {:induction false} LabelsArePrefixCode(n: WireName, m: WireName, s: seq<Byte>)
    requires Labels(n) <= s && Labels(m) <= s && |n| <= |m|
    ensures m[..|n|] == n
  {
    if n == [] {
    } else {
      assert |n[0]| == s[0] == |m[0]|;
      var k := 1 + |n[0]|;
      assert n[0] == Labels(n)[1..k] == s[1..k] == Labels(m)[1..k] == m[0];
      assert Labels(n)[k..] == Labels(n[1..]) && Labels(m)[k..] == Labels(m[1..]);
      LabelsArePrefixCode(n[1..], m[1..], s[k..]);
      assert m[..|n|] == [m[0]] + m[1..][..|n| - 1];
    }
  }

  /** After the first labels of a name come the length and the bytes of the next one. */
  lemma {:induction false} NextLabel(n: WireName, k: nat)
    requires k < |n|
    ensures Labels(n[..k]) + [|n[k]|] + n[k] <= Labels(n)
  {
    if k == 0 {
      assert n[..0] == [];
    } else {
      NextLabel(n[1..], k - 1);
      assert n[..k][1..] == n[1..][..k - 1];
    }
  }

  // ---- Keys ---------------------------------------------------------------------------------

  datatype Key = Key(qname: seq<Byte>, qtype: int)

  function Zeros(n: nat): seq<Byte> {
    seq(n, _ => 0)
  }

  function Padded(s: seq<Byte>): seq<Byte>
    requires |s| <= MAX_QNAME_LEN
  {
    s + Zeros(MAX_QNAME_LEN - |s|)
  }

  /** The encoder: the name in lower case, packed into 255 bytes, or an error if it is too long. */
  function EncodeKey(n: WireName, qtype: int): (k: Option<Key>)
    ensures k.Some? <==> IsName(n)
  {
    LowerLabels(n);
    var wire := Wire(LowerName(n));
    if |wire| > MAX_QNAME_LEN then None else Some(Key(Padded(wire), qtype))
  }

  lemma LowerAllJoin(a: seq<Byte>, b: seq<Byte>)
    ensures LowerAll(a + b) == LowerAll(a) + LowerAll(b)
  {
  }

  lemma {:induction false} LowerLabels(n: WireName)
    ensures Labels(LowerName(n)) == LowerAll(Labels(n))
  {
    if n == [] {
    } else {
      var len: seq<Byte>, l, rest := [|n[0]|], n[0], n[1..];
      LowerLabels(rest);
      assert LowerName(n) == [LowerAll(l)] + LowerName(rest);
      assert LowerName(n)[1..] == LowerName(rest);
      LowerAllJoin(len + l, Labels(rest));
      LowerAllJoin(len, l);
      assert LowerAll(len) == len;
    }
  }

  // ---- What the parser accepts --------------------------------------------------------------

  /** Where the parser expects the type after it has read these labels. The loop has 127 rounds,
      and the root takes one. */
  function TypeOffset(n: WireName): nat {
    |Labels(n)| + if |n| < MAX_QNAME_LABELS then 1 else 0
  }

  /** The packet, from the question on, holds these labels, then the root unless there are 127
      labels, then at least four bytes. */
  ghost predicate Accepted(pkt: seq<Byte>, n: WireName) {
    && |n| <= MAX_QNAME_LABELS
    && Labels(n) <= pkt
    && TypeOffset(n) <= MAX_QNAME_LEN
    && TypeOffset(n) + 4 <= |pkt|
    && (|n| < MAX_QNAME_LABELS ==> pkt[|Labels(n)|] == 0)
  }

  /** The key read from such a packet. */
  ghost function ReadKey(pkt: seq<Byte>, n: WireName): Key
    requires Accepted(pkt, n)
  {
    var at := TypeOffset(n);
    Key(Padded(LowerAll(Labels(n))), pkt[at] as int * 256 + pkt[at + 1])
  }

  /** The bytes with every capital letter replaced by its small one, and zeros up to the key's size. */
  ghost predicate IsFolded(qname: seq<Byte>, bytes: seq<Byte>) {
    && |bytes| <= |qname| == MAX_QNAME_LEN
    && SameLetters(qname[..|bytes|], bytes) && HasNoCapital(qname)
    && forall i :: |bytes| <= i < MAX_QNAME_LEN ==> qname[i] == 0
  }

  lemma PaddedIsFolded(bytes: seq<Byte>)
    requires |bytes| <= MAX_QNAME_LEN
    ensures IsFolded(Padded(LowerAll(bytes)), bytes)
  {
    LowerIsCanonical(bytes, bytes);
    var qname := Padded(LowerAll(bytes));
    assert qname[..|bytes|] == LowerAll(bytes);
    forall i | 0 <= i < |qname| ensures !(65 <= qname[i] <= 90) {
      assert i < |bytes| ==> qname[i] == LowerAll(bytes)[i];
    }
  }

  /** While the parser has read some labels, any name it may still accept either ends here or goes
      on with a label that fits. */
  lemma Continues(pkt: seq<Byte>, name: WireName, n: WireName)
    requires Labels(name) <= pkt && |name| < MAX_QNAME_LABELS && Accepted(pkt, n)
    ensures var off := |Labels(name)|;
            && off < |pkt|
            && (if pkt[off] == 0 then n == name
                else pkt[off] <= 63 && off + 1 + pkt[off] <= MAX_QNAME_LEN && off + 1 + pkt[off] <= |pkt|)
  {
    if |n| < |name| {
      LabelsArePrefixCode(n, name, pkt);
      NextLabel(name, |n|);
    } else {
      LabelsArePrefixCode(name, n, pkt);
      if |n| > |name| {
        NextLabel(n, |name|);
        var next := Labels(name) + [|n[|name|]|] + n[|name|];
        assert next <= pkt && next[|Labels(name)|] == |n[|name|]|;
      } else {
        assert n == name;
      }
    }
  }

  /** A packet is accepted for at most one name. */
  lemma AcceptedIsUnique(pkt: seq<Byte>, n: WireName, m: WireName)
    requires Accepted(pkt, n) && Accepted(pkt, m)
    ensures n == m
  {
    if |n| <= |m| {
      LabelsArePrefixCode(n, m, pkt);
    } else {
      LabelsArePrefixCode(m, n, pkt);
    }
    if |n| < |m| {
      Continues(pkt, n, m);
    } else if |m| < |n| {
      Continues(pkt, m, n);
    }
  }

  // ---- The parser ---------------------------------------------------------------------------

  lemma WritePadded(s: seq<Byte>, b: Byte)
    requires |s| < MAX_QNAME_LEN
    ensures Padded(s)[|s| := b] == Padded(s + [b])
    ensures Padded(s)[|s| := 0] == Padded(s)
  {
  }

  /** The write mask is the identity for every offset the parser writes at. */
  method WriteByte(qname: array<Byte>, off: nat, b: Byte)
    requires qname.Length == MAX_QNAME_LEN && off < MAX_QNAME_LEN
    modifies qname
    ensures qname[..] == old(qname[..])[off := b]
  {
    qname[off % 256] := b;
  }

  method CopyLabel(pkt: seq<Byte>, off: nat, len: nat, qname: array<Byte>)
    requires qname.Length == MAX_QNAME_LEN && 0 < len <= 63
    requires off + len <= MAX_QNAME_LEN && off + len <= |pkt|
    requires qname[..] == Padded(LowerAll(pkt[..off]))
    modifies qname
    ensures qname[..] == Padded(LowerAll(pkt[..off + len]))
  {
    for j := 0 to len
      invariant qname[..] == Padded(LowerAll(pkt[..off + j]))
    {
      var ch := pkt[off + j];
      if 65 <= ch <= 90 {
        ch := ch + 32;
      }
      WritePadded(LowerAll(pkt[..off + j]), ch);
      WriteByte(qname, off + j, ch);
      assert LowerAll(pkt[..off + j + 1]) == LowerAll(pkt[..off + j]) + [ch];
    }
  }

  /** The state of the parser between labels: the labels read so far are `name`, and the key holds
      their bytes in lower case and zeros. */
  ghost predicate ReadSoFar(pkt: seq<Byte>, off: nat, qname: seq<Byte>, name: WireName) {
    && |Labels(name)| == off <= MAX_QNAME_LEN && Labels(name) <= pkt
    && qname == Padded(LowerAll(Labels(name)))
  }

  /** One round of the loop: one more label, or the root, or no accepted name at all. */
  method ReadLabel(pkt: seq<Byte>, off: nat, qname: array<Byte>, ghost name: WireName)
    returns (pass: bool, root: bool, next: nat, ghost more: WireName)
    requires qname.Length == MAX_QNAME_LEN && |name| < MAX_QNAME_LABELS
    requires ReadSoFar(pkt, off, qname[..], name)
    modifies qname
    ensures pass ==> forall n :: !Accepted(pkt, n)
    ensures !pass && root ==>
              more == name && next == off + 1 <= MAX_QNAME_LEN && off < |pkt| && pkt[off] == 0
              && ReadSoFar(pkt, off, qname[..], name)
    ensures !pass && !root ==> |more| == |name| + 1 && ReadSoFar(pkt, next, qname[..], more)
  {
    pass, root, next, more := true, false, off, name;
    forall n | Accepted(pkt, n) ensures off < |pkt| && Fits(pkt, off) {
      Continues(pkt, name, n);
    }
    if off + 1 > |pkt| {
      return;
    }
    var len := pkt[off];
    if len == 0 {
      if off >= MAX_QNAME_LEN {
        return;
      }
      WritePadded(LowerAll(Labels(name)), 0);
      WriteByte(qname, off, 0);
      pass, root, next := false, true, off + 1;
      return;
    }
    if len > 63 {
      return;
    }
    if off + 1 + len > MAX_QNAME_LEN {
      return;
    }
    WritePadded(LowerAll(Labels(name)), len);
    WriteByte(qname, off, len);
    next := off + 1;
    if next + len > |pkt| {
      return;
    }
    assert pkt[..off] == Labels(name);
    assert LowerAll(pkt[..off + 1]) == LowerAll(pkt[..off]) + [len];
    CopyLabel(pkt, next, len, qname);
    next := next + len;
    pass := false;
    ghost var l: WireLabel := pkt[off + 1..next];
    more := name + [l];
    LabelsSnoc(name, l);
    assert pkt[..next] == Labels(more);
  }

  /** The bounds the loop checks at a label. */
  ghost predicate Fits(pkt: seq<Byte>, off: nat)
    requires off < |pkt|
  {
    if pkt[off] == 0 then off < MAX_QNAME_LEN
    else pkt[off] <= 63 && off + 1 + pkt[off] <= MAX_QNAME_LEN && off + 1 + pkt[off] <= |pkt|
  }

  /** Once the loop has run out, only the 127 labels it has read can be accepted. */
  lemma OnlyAllRead(pkt: seq<Byte>, name: WireName, n: WireName)
    requires Labels(name) <= pkt && |name| == MAX_QNAME_LABELS && Accepted(pkt, n)
    ensures n == name
  {
    LabelsArePrefixCode(n, name, pkt);
    if |n| < |name| {
      NextLabel(name, |n|);
    }
  }

  /** The key is built exactly for the packets that are accepted, and it is the key of the one name
      they hold; every other packet is passed on. */
  method ExtractKey(pkt: seq<Byte>, qname: array<Byte>) returns (pass: bool, qtype: int, ghost name: WireName)
    requires qname.Length == MAX_QNAME_LEN
    modifies qname
    ensures pass ==> forall n :: !Accepted(pkt, n)
    ensures !pass ==> Accepted(pkt, name) && Key(qname[..], qtype) == ReadKey(pkt, name)
    ensures !pass ==> IsFolded(qname[..], Labels(name)) && Labels(name) <= pkt
  {
    pass, qtype, name := true, 0, [];
    if |pkt| < 1 {
      return;
    }
    forall i | 0 <= i < qname.Length {
      qname[i] := 0;
    }
    assert qname[..] == Padded(LowerAll(Labels([])));
    var off, i, root := 0, 0, false;
    while i < MAX_QNAME_LABELS && !root
      invariant i <= MAX_QNAME_LABELS && |Labels(name)| <= MAX_QNAME_LEN
      invariant ReadSoFar(pkt, |Labels(name)|, qname[..], name)
      invariant !root ==> |name| == i && off == |Labels(name)|
      invariant root ==> |name| < MAX_QNAME_LABELS && off == |Labels(name)| + 1 <= MAX_QNAME_LEN
                         && off <= |pkt| && pkt[off - 1] == 0
      decreases MAX_QNAME_LABELS - i, !root
    {
      var out;
      out, root, off, name := ReadLabel(pkt, off, qname, name);
      if out {
        return;
      }
      i := i + 1;
    }
    assert off == TypeOffset(name);
    forall n | Accepted(pkt, n) ensures n == name {
      if root {
        Continues(pkt, name, n);
      } else {
        OnlyAllRead(pkt, name, n);
      }
    }
    if off + 4 > |pkt| {
      return;
    }
    pass := false;
    qtype := pkt[off] as int * 256 + pkt[off + 1];
    PaddedIsFolded(Labels(name));
  }

  // ---- Agreement ----------------------------------------------------------------------------

  function Word(w: int): seq<Byte>
    requires 0 <= w < 65536
  {
    [w / 256, w % 256]
  }

  /** The question section of a query, and whatever follows it. */
  function Query(n: WireName, qtype: int, qclass: int, rest: seq<Byte>): seq<Byte>
    requires 0 <= qtype < 65536 && 0 <= qclass < 65536
  {
    Wire(n) + Word(qtype) + Word(qclass) + rest
  }

  /** For every name of at most 255 octets in any letter case, every type and class and whatever
      follows, the parser accepts the query, and its key is the one the encoder builds for the name
      in any other letter case, exactly when the name has at most 126 labels or the type is zero. */
  lemma KeyAgreement(n: WireName, m: WireName, qtype: int, qclass: int, rest: seq<Byte>)
    requires IsName(n) && SameName(n, m) && 0 <= qtype < 65536 && 0 <= qclass < 65536
    ensures Accepted(Query(n, qtype, qclass, rest), n)
    ensures EncodeKey(m, qtype) == Some(ReadKey(Query(n, qtype, qclass, rest), n)) <==> |n| <= 126 || qtype == 0
  {
    QueryIsAccepted(n, qtype, qclass, rest);
    EncodedName(n, m, qtype);
    var pkt, key := Query(n, qtype, qclass, rest), Padded(LowerAll(Labels(n)));
    assert |n| <= 126 ==> ReadKey(pkt, n) == Key(key, qtype);
    assert |n| > 126 ==> ReadKey(pkt, n) == Key(key, qtype / 256);
  }

  /** Where the type ends up: whole, or for 127 labels after a zero byte and cut to its upper half. */
  lemma QueryIsAccepted(n: WireName, qtype: int, qclass: int, rest: seq<Byte>)
    requires IsName(n) && 0 <= qtype < 65536 && 0 <= qclass < 65536
    ensures var pkt := Query(n, qtype, qclass, rest);
            && Accepted(pkt, n)
            && ReadKey(pkt, n) == Key(Padded(LowerAll(Labels(n))), if |n| <= 126 then qtype else qtype / 256)
            && (|n| > 126 ==> (qtype / 256 == qtype <==> qtype == 0))
  {
    QueryBytes(n, qtype, qclass, rest);
    TypeIsRead(Query(n, qtype, qclass, rest), n, qtype);
  }

  lemma TypeIsRead(pkt: seq<Byte>, n: WireName, qtype: int)
    requires IsName(n) && Labels(n) <= pkt && |Labels(n)| + 5 <= |pkt| && pkt[|Labels(n)|] == 0
    requires 0 <= qtype < 65536
    requires pkt[|Labels(n)| + 1] == qtype / 256 && pkt[|Labels(n)| + 2] == qtype % 256
    ensures Accepted(pkt, n)
    ensures ReadKey(pkt, n) == Key(Padded(LowerAll(Labels(n))), if |n| <= 126 then qtype else qtype / 256)
  {
    LabelsLength(n);
  }

  lemma QueryBytes(n: WireName, qtype: int, qclass: int, rest: seq<Byte>)
    requires 0 <= qtype < 65536 && 0 <= qclass < 65536
    ensures var pkt, at := Query(n, qtype, qclass, rest), |Labels(n)|;
            && Labels(n) <= pkt && at + 5 <= |pkt|
            && pkt[at] == 0 && pkt[at + 1] == qtype / 256 && pkt[at + 2] == qtype % 256
            && (qtype / 256 == qtype <==> qtype == 0)
  {
    var tail := [0] + Word(qtype) + Word(qclass) + rest;
    assert Query(n, qtype, qclass, rest) == Labels(n) + tail;
  }

  lemma EncodedName(n: WireName, m: WireName, qtype: int)
    requires IsName(n) && SameName(n, m)
    ensures EncodeKey(m, qtype) == Some(Key(Padded(LowerAll(Labels(n))), qtype))
  {
    LowerNameIsCanonical(n, m);
    LowerLabels(n);
    WritePadded(LowerAll(Labels(n)), 0);
  }

  /** The encoded key holds the name's labels in small letters. */
  lemma EncodedIsFolded(n: WireName, qtype: int)
    requires IsName(n)
    ensures var k := EncodeKey(n, qtype).value; IsFolded(k.qname, Labels(n)) && k.qtype == qtype
  {
    assert SameName(n, n);
    EncodedName(n, n, qtype);
    PaddedIsFolded(Labels(n));
  }

  /** Encoded keys are equal exactly when the names agree up to letter case and the types agree. */
  lemma KeysIdentifyQuestions(n: WireName, m: WireName, p: int, q: int)
    requires IsName(n) && IsName(m)
    ensures EncodeKey(n, p) == EncodeKey(m, q) <==> SameName(n, m) && p == q
  {
    LowerNameIsCanonical(n, m);
    LowerLabels(n);
    LowerLabels(m);
    var a, b := LowerName(n), LowerName(m);
    if EncodeKey(n, p) == EncodeKey(m, q) {
      if |a| <= |b| {
        SamePadding(a, b);
      } else {
        SamePadding(b, a);
      }
    }
  }

  lemma SamePadding(a: WireName, b: WireName)
    requires IsName(a) && IsName(b) && |a| <= |b|
    requires Padded(Wire(a)) == Padded(Wire(b))
    ensures a == b
  {
    var s := Padded(Wire(a));
    assert Labels(a) <= s && Labels(b) <= s && s[|Labels(a)|] == 0;
    LabelsArePrefixCode(a, b, s);
    if |a| < |b| {
      NextLabel(b, |a|);
    }
  }

  /** A query finds the entry stored for a name and a type exactly when it asks for that name, up to
      letter case, and that type; a query for 127 labels looks for the upper half of its type. */
  lemma LookupFindsItsEntry(n: WireName, qtype: int, qclass: int, rest: seq<Byte>, m: WireName, p: int)
    requires IsName(n) && 0 <= qtype < 65536 && 0 <= qclass < 65536
    ensures Accepted(Query(n, qtype, qclass, rest), n)
    ensures EncodeKey(m, p) == Some(ReadKey(Query(n, qtype, qclass, rest), n)) <==>
            SameName(n, m) && p == if |n| <= 126 then qtype else qtype / 256
  {
    LowerNameIsCanonical(n, m);
    QueryIsAccepted(n, qtype, qclass, rest);
    var read := if |n| <= 126 then qtype else qtype / 256;
    EncodedName(n, n, read);
    if IsName(m) {
      KeysIdentifyQuestions(n, m, read, p);
    } else {
      LowerLabels(n);
      LowerLabels(m);
    }
  }

  lemma {:induction false} SingleByteLabels(k: nat) returns (n: WireName)
    ensures |n| == k && |Labels(n)| == 2 * k
  {
    n := [];
    if k == 0 {
    } else {
      var rest := SingleByteLabels(k - 1);
      n := [[97]] + rest;
    }
  }

  /** A name of 127 labels is valid, and its address query does not find its own entry. */
  lemma LongestNameMisses() returns (n: WireName)
    ensures IsName(n) && |n| == 127 && Accepted(Query(n, 1, 1, []), n)
    ensures EncodeKey(n, 1) != Some(ReadKey(Query(n, 1, 1, []), n))
  {
    n := SingleByteLabels(127);
    KeyAgreement(n, n, 1, 1, []);
  }
}
