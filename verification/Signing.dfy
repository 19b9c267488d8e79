/** The bytes a package signature covers: canonical, and decodable back to the members they stand for. */
module Signing {
  import opened Wrappers
  import opened Packets
  import opened Sorting

  /** An archive member: its path and its contents. */
  type Entry = Keyed<seq<Byte>>

  function Ascii(s: string): Name
    requires forall i :: 0 <= i < |s| ==> s[i] as int < 128
  {
    seq(|s|, i requires 0 <= i < |s| => s[i] as int as Byte)
  }

  const SIGNATURES: Name := Ascii("signatures/")
  const SIGNATURE_MEMBER: Name := Ascii("signatures/ed25519.sig")
  const PUBLIC_KEY_MEMBER: Name := Ascii("signatures/ed25519.pub")

  // ----- The encoding -----------------------------------------------------

  /** The low `k` bytes of a number, least significant first. */
  function LittleEndian(n: nat, k: nat): seq<Byte> {
    if k == 0 then [] else [(n % 0x100) as Byte] + LittleEndian(n / 0x100, k - 1)
  }

  function FromLittleEndian(bytes: seq<Byte>): nat {
    if bytes == [] then 0 else bytes[0] as nat + 0x100 * FromLittleEndian(bytes[1..])
  }

  function Power(k: nat): nat { if k == 0 then 1 else 0x100 * Power(k - 1) }

  /** Path, NUL, eight length bytes, contents. */
  function Frame(e: Entry): seq<Byte> { e.key + [0] + LittleEndian(|e.value|, 8) + e.value }

  function Encode(entries: seq<Entry>): seq<Byte> {
    if entries == [] then [] else Frame(entries[0]) + Encode(entries[1..])
  }

  /** What a signature covers: every member outside `signatures/`. */
  function Covered(entries: seq<Entry>): seq<Entry> {
    if entries == [] then []
    else if SIGNATURES <= entries[0].key then Covered(entries[1..])
    else [entries[0]] + Covered(entries[1..])
  }

  method Append(buf: seq<Byte>, e: Entry) returns (longer: seq<Byte>)
    ensures longer == buf + Frame(e)
  {
    longer := buf + e.key;
    longer := longer + [0];
    longer := longer + LittleEndian(|e.value|, 8);
    longer := longer + e.value;
  }

  lemma {:induction false} EncodeSnoc(entries: seq<Entry>, e: Entry)
    ensures Encode(entries + [e]) == Encode(entries) + Frame(e)
  {
    var longer := entries + [e];
    if entries == [] {
      assert longer[1..] == [];
      assert Frame(e) + [] == [] + Frame(e);
    } else {
      assert longer[0] == entries[0] && longer[1..] == entries[1..] + [e];
      EncodeSnoc(entries[1..], e);
      assert Frame(entries[0]) + (Encode(entries[1..]) + Frame(e)) == Encode(entries) + Frame(e);
    }
  }

  method EncodeAll(entries: seq<Entry>) returns (buf: seq<Byte>)
    ensures buf == Encode(entries)
  {
    buf := [];
    var i := 0;
    while i < |entries|
      invariant i <= |entries| && buf == Encode(entries[..i])
    {
      EncodeSnoc(entries[..i], entries[i]);
      assert entries[..i + 1] == entries[..i] + [entries[i]];
      buf := Append(buf, entries[i]);
      i := i + 1;
    }
    assert entries[..i] == entries;
  }

  method SignableBytes(entries: seq<Entry>) returns (buf: seq<Byte>)
    ensures buf == Encode(Sort(Covered(entries)))
  {
    var sorted := Sort(Covered(entries));
    buf := EncodeAll(sorted);
  }

  // ----- The layout, byte by byte ------------------------------------------

  /** Eight bytes that write a number, the least significant first. */
  predicate Writes(b: seq<Byte>, n: nat) {
    && |b| == 8
    && n == b[0] as nat + 0x100 * b[1] as nat + 0x1_0000 * b[2] as nat + 0x100_0000 * b[3] as nat
            + 0x1_0000_0000 * b[4] as nat + 0x100_0000_0000 * b[5] as nat
            + 0x1_0000_0000_0000 * b[6] as nat + 0x100_0000_0000_0000 * b[7] as nat
  }

  lemma FirstTwo(b: seq<Byte>)
    requires |b| >= 2
    ensures FromLittleEndian(b) == b[0] as nat + 0x100 * b[1] as nat + 0x1_0000 * FromLittleEndian(b[2..])
  {
    assert b[1..][1..] == b[2..];
  }

  lemma LengthIsWritten(n: nat)
    requires n < 0x1_0000_0000_0000_0000
    ensures Writes(LittleEndian(n, 8), n)
  {
    assert Power(8) == 0x1_0000_0000_0000_0000;
    LittleEndianInverts(n, 8);
    EightBytes(LittleEndian(n, 8));
  }

  lemma EightBytes(b: seq<Byte>)
    requires |b| == 8
    ensures Writes(b, FromLittleEndian(b))
  {
    FirstTwo(b);
    FirstTwo(b[2..]);
    FirstTwo(b[4..]);
    FirstTwo(b[6..]);
    assert b[2..][2..] == b[4..] && b[4..][2..] == b[6..] && b[6..][2..] == [];
  }

  /** At a position: the path, a NUL, the length of the contents, and the contents. */
  predicate FrameAt(bytes: seq<Byte>, at: nat, e: Entry) {
    var i, n := at + |e.key|, |e.value|;
    && i + 9 + n <= |bytes|
    && bytes[at..i] == e.key && bytes[i] == 0 && Writes(bytes[i + 1..i + 9], n) && bytes[i + 9..i + 9 + n] == e.value
  }

  /** The members one after another, with nothing before, between or after them. */
  predicate LaidOut(bytes: seq<Byte>, members: seq<Entry>, starts: seq<nat>) {
    && |starts| == |members| + 1 && starts[0] == 0 && starts[|members|] == |bytes|
    && forall i :: 0 <= i < |members| ==> Slot(bytes, members, starts, i)
  }

  predicate Slot(bytes: seq<Byte>, members: seq<Entry>, starts: seq<nat>, i: nat)
    requires i < |members| && |starts| == |members| + 1
  {
    FrameAt(bytes, starts[i], members[i]) && starts[i + 1] == starts[i] + |members[i].key| + 9 + |members[i].value|
  }

  predicate Short(e: Entry) { |e.value| < 0x1_0000_0000_0000_0000 }

  lemma FrameFits(before: seq<Byte>, e: Entry)
    requires Short(e)
    ensures FrameAt(before + Frame(e), |before|, e) && |Frame(e)| == |e.key| + 9 + |e.value|
  {
    var length := LittleEndian(|e.value|, 8);
    LengthIsWritten(|e.value|);
    var bytes, i := before + Frame(e), |before| + |e.key|;
    assert bytes == before + e.key + [0] + length + e.value;
    assert bytes[|before|..i] == e.key && bytes[i + 1..i + 9] == length && bytes[i + 9..] == e.value;
  }

  lemma FrameStays(bytes: seq<Byte>, more: seq<Byte>, at: nat, e: Entry)
    requires FrameAt(bytes, at, e)
    ensures FrameAt(bytes + more, at, e)
  {
    var i := at + |e.key|;
    assert (bytes + more)[at..i] == bytes[at..i] && (bytes + more)[i + 1..i + 9] == bytes[i + 1..i + 9];
    assert (bytes + more)[i + 9..i + 9 + |e.value|] == bytes[i + 9..i + 9 + |e.value|];
  }

  lemma SlotStays(bytes: seq<Byte>, members: seq<Entry>, starts: seq<nat>, e: Entry, end: nat, i: nat)
    requires LaidOut(bytes, members, starts) && i < |members|
    ensures Slot(bytes + Frame(e), members + [e], starts + [end], i)
  {
    assert Slot(bytes, members, starts, i);
    FrameStays(bytes, Frame(e), starts[i], members[i]);
  }

  lemma LaidOutSnoc(bytes: seq<Byte>, members: seq<Entry>, starts: seq<nat>, e: Entry)
    requires LaidOut(bytes, members, starts) && Short(e)
    ensures LaidOut(bytes + Frame(e), members + [e], starts + [|bytes + Frame(e)|])
  {
    var longer, more, ends := bytes + Frame(e), members + [e], starts + [|bytes + Frame(e)|];
    FrameFits(bytes, e);
    forall i | 0 <= i < |more| ensures Slot(longer, more, ends, i) {
      if i < |members| { SlotStays(bytes, members, starts, e, |longer|, i); }
    }
  }

  lemma {:induction false} EncodeLaysOut(entries: seq<Entry>) returns (starts: seq<nat>)
    requires forall i :: 0 <= i < |entries| ==> Short(entries[i])
    ensures LaidOut(Encode(entries), entries, starts)
  {
    starts := [0];
    if entries != [] {
      var last := |entries| - 1;
      starts := EncodeLaysOut(entries[..last]);
      EncodeSnoc(entries[..last], entries[last]);
      LaidOutSnoc(Encode(entries[..last]), entries[..last], starts, entries[last]);
      assert entries == entries[..last] + [entries[last]];
      starts := starts + [|Encode(entries)|];
    }
  }

  lemma {:induction false} CoveredCounts(entries: seq<Entry>, e: Entry)
    ensures multiset(Covered(entries))[e] == if Ascii("signatures/") <= e.key then 0 else multiset(entries)[e]
  {
    if entries != [] {
      CoveredCounts(entries[1..], e);
      assert entries == [entries[0]] + entries[1..];
    }
  }

  lemma MembersCount(entries: seq<Entry>)
    ensures forall e :: multiset(Sort(Covered(entries)))[e] ==
                        if Ascii("signatures/") <= e.key then 0 else multiset(entries)[e]
  {
    SortSorts(Covered(entries));
    forall e
      ensures multiset(Sort(Covered(entries)))[e] == if Ascii("signatures/") <= e.key then 0 else multiset(entries)[e]
    {
      CoveredCounts(entries, e);
    }
  }

  lemma MembersShort(entries: seq<Entry>)
    requires forall e :: e in entries ==> Short(e)
    ensures var members := Sort(Covered(entries)); forall i :: 0 <= i < |members| ==> Short(members[i])
  {
    var members := Sort(Covered(entries));
    SortSorts(Covered(entries));
    forall i | 0 <= i < |members| ensures Short(members[i]) {
      assert members[i] in multiset(members);
      CoveredIn(entries, members[i]);
    }
  }

  /**
   The signed bytes are the members that are not in the signatures directory, in ascending order of
   their paths, each as its path, a NUL, its length in eight bytes from the lowest, and its contents.
   */
  lemma SignedBytesExactly(entries: seq<Entry>) returns (members: seq<Entry>, starts: seq<nat>)
    requires forall e :: e in entries ==> Short(e)
    ensures LaidOut(Encode(Sort(Covered(entries))), members, starts)
    ensures forall i, j :: 0 <= i < j < |members| ==> Before(members[i].key, members[j].key)
    ensures forall e :: multiset(members)[e] == if Ascii("signatures/") <= e.key then 0 else multiset(entries)[e]
  {
    members := Sort(Covered(entries));
    SortSorts(Covered(entries));
    MembersCount(entries);
    MembersShort(entries);
    starts := EncodeLaysOut(members);
  }

  // ----- Decoding ---------------------------------------------------------

  /** The position of the first NUL, or the length. */
  function FirstNul(bytes: seq<Byte>): (i: nat)
    ensures i <= |bytes| && (i < |bytes| ==> bytes[i] == 0) && forall k :: 0 <= k < i ==> bytes[k] != 0
  {
    if bytes == [] || bytes[0] == 0 then 0 else 1 + FirstNul(bytes[1..])
  }

  function Decode(bytes: seq<Byte>): Option<seq<Entry>>
    decreases |bytes|
  {
    if bytes == [] then Some([])
    else
      var i := FirstNul(bytes);
      if |bytes| < i + 9 then None
      else
        var length := FromLittleEndian(bytes[i + 1..i + 9]);
        if |bytes| < i + 9 + length then None
        else
          var rest := Decode(bytes[i + 9 + length..]);
          if rest.None? then None
          else Some([Keyed(bytes[..i], bytes[i + 9..i + 9 + length])] + rest.value)
  }

  lemma {:induction false} LittleEndianInverts(n: nat, k: nat)
    requires n < Power(k)
    ensures |LittleEndian(n, k)| == k && FromLittleEndian(LittleEndian(n, k)) == n
  {
    if k > 0 {
      LittleEndianInverts(n / 0x100, k - 1);
      assert LittleEndian(n, k)[1..] == LittleEndian(n / 0x100, k - 1);
    }
  }

  /** A member the encoding can represent: no NUL in its path, a length that fits 64 bits. */
  predicate Plain(e: Entry) { (forall b :: b in e.key ==> b != 0) && Short(e) }

  predicate AllPlain(entries: seq<Entry>) { forall e :: e in entries ==> Plain(e) }

  lemma FrameParts(path: Name, length: seq<Byte>, contents: seq<Byte>, rest: seq<Byte>)
    requires |length| == 8 && forall b :: b in path ==> b != 0
    ensures var bytes, i, n := path + [0] + length + contents + rest, |path|, |contents|;
            && |bytes| >= i + 9 + n && FirstNul(bytes) == i && bytes[..i] == path
            && bytes[i + 1..i + 9] == length && bytes[i + 9..i + 9 + n] == contents && bytes[i + 9 + n..] == rest
  {
    var bytes := path + [0] + length + contents + rest;
    assert bytes[|path|] == 0;
    assert forall k :: 0 <= k < |path| ==> bytes[k] == path[k] && path[k] in path;
  }

  /** One frame at the front is read back. */
  lemma FrameInverts(e: Entry, rest: seq<Byte>)
    requires Plain(e)
    ensures var bytes := Frame(e) + rest;
            Decode(bytes) ==
            if Decode(rest).None? then None else Some([e] + Decode(rest).value)
  {
    assert Power(8) == 0x1_0000_0000_0000_0000;
    LittleEndianInverts(|e.value|, 8);
    FrameParts(e.key, LittleEndian(|e.value|, 8), e.value, rest);
  }

  lemma {:induction false} DecodeInverts(entries: seq<Entry>)
    requires AllPlain(entries)
    ensures Decode(Encode(entries)) == Some(entries)
  {
    if entries != [] {
      DecodeInverts(entries[1..]);
      FrameInverts(entries[0], Encode(entries[1..]));
      assert entries == [entries[0]] + entries[1..];
    }
  }

  // ----- Canonical and injective ------------------------------------------

  lemma {:induction false} CoveredIn(entries: seq<Entry>, e: Entry)
    ensures e in Covered(entries) <==> e in entries && !(SIGNATURES <= e.key)
  {
    if entries != [] { CoveredIn(entries[1..], e); }
  }

  lemma SortedPlain(entries: seq<Entry>)
    requires AllPlain(entries)
    ensures AllPlain(Sort(Covered(entries)))
  {
    SortSorts(Covered(entries));
    forall e | e in Sort(Covered(entries)) ensures Plain(e) {
      assert e in multiset(Sort(Covered(entries)));
      CoveredIn(entries, e);
    }
  }

  /** No two members share a path. */
  ghost predicate DistinctPaths(entries: seq<Entry>) {
    forall i, j :: 0 <= i < j < |entries| ==> entries[i].key != entries[j].key
  }

  lemma PathsTell(entries: seq<Entry>)
    requires DistinctPaths(entries)
    ensures KeysTell(multiset(Covered(entries)))
  {
    forall x, y | x in multiset(Covered(entries)) && y in multiset(Covered(entries)) && x.key == y.key ensures x == y {
      CoveredIn(entries, x);
      CoveredIn(entries, y);
      var i :| 0 <= i < |entries| && entries[i] == x;
      var j :| 0 <= j < |entries| && entries[j] == y;
    }
  }

  /**
   Two member lists have the same signable bytes exactly when, apart from `signatures/` members,
   they are permutations of each other.
   */
  lemma SameBytesExactlyWhenSameMembers(a: seq<Entry>, b: seq<Entry>)
    requires AllPlain(a) && AllPlain(b) && DistinctPaths(a) && DistinctPaths(b)
    ensures Encode(Sort(Covered(a))) == Encode(Sort(Covered(b))) <==> multiset(Covered(a)) == multiset(Covered(b))
  {
    SortedPlain(a);
    SortedPlain(b);
    DecodeInverts(Sort(Covered(a)));
    DecodeInverts(Sort(Covered(b)));
    SortSorts(Covered(a));
    SortSorts(Covered(b));
    if multiset(Covered(a)) == multiset(Covered(b)) {
      PathsTell(a);
      SortForgetsOrder(Covered(a), Covered(b));
    }
  }

  lemma {:induction false} CoveredAppend(a: seq<Entry>, b: seq<Entry>)
    ensures Covered(a + b) == Covered(a) + Covered(b)
  {
    if a == [] {
      assert a + b == b;
    } else {
      assert (a + b)[0] == a[0] && (a + b)[1..] == a[1..] + b;
      CoveredAppend(a[1..], b);
    }
  }

  // ----- Signing and verifying --------------------------------------------

  /** A signature scheme, as three operations. */
  datatype Scheme<!Key, !Public, !Signature> = Scheme(
    publicKey: Key -> Public,
    sign: (Key, seq<Byte>) -> Signature,
    verify: (Public, seq<Byte>, Signature) -> bool)
  {
    /** A signature verifies for what was signed, and for nothing else. */
    ghost predicate Faithful(key: Key) {
      forall m, m' :: verify(publicKey(key), m', sign(key, m)) <==> m == m'
    }
  }

  function Sign<Key, Public, Signature>(
    scheme: Scheme<Key, Public, Signature>, entries: seq<Entry>, key: Key): Signature
  {
    scheme.sign(key, Encode(Sort(Covered(entries))))
  }

  predicate Verify<Key, Public, Signature>(
    scheme: Scheme<Key, Public, Signature>, entries: seq<Entry>, signature: Signature, public: Public)
  {
    scheme.verify(public, Encode(Sort(Covered(entries))), signature)
  }

  /** The package with its signature and public key added as members. */
  function Signed(entries: seq<Entry>, signature: seq<Byte>, public: seq<Byte>): seq<Entry> {
    entries + [Keyed(SIGNATURE_MEMBER, signature)] + [Keyed(PUBLIC_KEY_MEMBER, public)]
  }

  /** Adding the two members does not change what is covered, so a package signs itself consistently. */
  lemma SigningCoversTheSame(entries: seq<Entry>, signature: seq<Byte>, public: seq<Byte>)
    ensures Covered(Signed(entries, signature, public)) == Covered(entries)
  {
    var s, p := [Keyed(SIGNATURE_MEMBER, signature)], [Keyed(PUBLIC_KEY_MEMBER, public)];
    assert SIGNATURES <= SIGNATURE_MEMBER && SIGNATURES <= PUBLIC_KEY_MEMBER;
    CoveredAppend(entries + s, p);
    CoveredAppend(entries, s);
    assert s[1..] == [] && p[1..] == [];
    assert Covered(entries) + [] + [] == Covered(entries);
  }

  /**
   With a faithful scheme, a package's signature verifies for another member list exactly when that
   list has the same members outside `signatures/`; in particular for the signed package itself.
   */
  lemma VerifiesExactlyTheMembers<Key, Public, Signature>(
    scheme: Scheme<Key, Public, Signature>, key: Key, signed: seq<Entry>, loaded: seq<Entry>)
    requires scheme.Faithful(key)
    requires AllPlain(signed) && AllPlain(loaded) && DistinctPaths(signed) && DistinctPaths(loaded)
    ensures Verify(scheme, loaded, Sign(scheme, signed, key), scheme.publicKey(key)) <==>
            multiset(Covered(loaded)) == multiset(Covered(signed))
    ensures forall s, p :: Verify(scheme, Signed(signed, s, p), Sign(scheme, signed, key), scheme.publicKey(key))
  {
    SameBytesExactlyWhenSameMembers(signed, loaded);
    forall s, p ensures Verify(scheme, Signed(signed, s, p), Sign(scheme, signed, key), scheme.publicKey(key)) {
      SigningCoversTheSame(signed, s, p);
    }
  }
}
