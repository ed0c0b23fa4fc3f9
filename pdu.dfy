/** An outbound iSCSI PDU: its identity, its lifecycle flags and the cursors
    that record how much of its header and payload has reached the socket. */
module IscsiPdu {
  import opened IscsiWire

  /** There will be no response: release the PDU once it is on the wire and
      never put it on the wait queue. */
  const DeleteWhenSent: bv32 := 0x0000_0001
  /** Drop the PDU on reconnect instead of re-queuing it (Data-Out and NOPs). */
  const DropOnReconnect: bv32 := 0x0000_0004
  /** Once this PDU is on the wire the context is corked: nothing further is
      taken from the outbound queue. */
  const CorkWhenSent: bv32 := 0x0000_0008

  class Pdu {
    const opcode: Opcode
    const responseOpcode: Opcode
    const itt: bv32
    const flags: bv32

    /** Size of the outgoing header buffer, and how much of it is written. */
    const outdataSize: nat
    var outdataWritten: nat

    /** The payload range to write after the header, and how much of it is
        written. */
    const payloadOffset: nat
    const payloadLen: nat
    var payloadWritten: nat

    predicate Has(flag: bv32) {
      flags & flag != 0
    }

    /** The write cursors stay within what there is to write. */
    ghost predicate Valid()
      reads this
    {
      outdataWritten <= outdataSize && payloadWritten <= payloadLen
    }

    ghost predicate Unsent()
      reads this
    {
      outdataWritten == 0 && payloadWritten == 0
    }

    predicate HeaderSent()
      reads this
    {
      outdataWritten == outdataSize
    }

    predicate FullySent()
      reads this
    {
      outdataWritten == outdataSize && payloadWritten == payloadLen
    }

    /** Bytes of header and payload to write in all. */
    function Size(): nat {
      outdataSize + payloadLen
    }

    /** Bytes of header and payload still to be written. */
    function Unwritten(): (n: nat)
      requires Valid()
      reads this
      ensures n == 0 <==> FullySent()
      ensures n <= Size() && (Unsent() ==> n == Size())
    {
      (outdataSize - outdataWritten) + (payloadLen - payloadWritten)
    }

    /** A freshly allocated PDU whose header buffer holds the header alone. */
    constructor (opcode: Opcode, responseOpcode: Opcode, itt: bv32, flags: bv32,
                 digest: HeaderDigest, payloadOffset: nat, payloadLen: nat)
      ensures Valid() && Unsent()
      ensures this.opcode == opcode && this.responseOpcode == responseOpcode
      ensures this.itt == itt && this.flags == flags
      ensures outdataSize == HeaderSize(digest)
      ensures this.payloadOffset == payloadOffset && this.payloadLen == payloadLen
    {
      this.opcode := opcode;
      this.responseOpcode := responseOpcode;
      this.itt := itt;
      this.flags := flags;
      this.outdataSize := HeaderSize(digest);
      this.payloadOffset := payloadOffset;
      this.payloadLen := payloadLen;
      outdataWritten := 0;
      payloadWritten := 0;
    }

    /** Records that the socket took `accepted` more bytes of the header,
        never beyond its end. */
    method WriteOutdata(accepted: nat) returns (n: nat)
      requires Valid()
      modifies this`outdataWritten
      ensures Valid()
      ensures n == Min(accepted, old(outdataSize - outdataWritten))
      ensures outdataWritten == old(outdataWritten) + n
    {
      n := Min(accepted, outdataSize - outdataWritten);
      outdataWritten := outdataWritten + n;
    }

    /** Records that the socket took `accepted` more payload bytes; the
        payload goes out only after the whole header. */
    method WritePayload(accepted: nat) returns (n: nat)
      requires Valid() && HeaderSent()
      modifies this`payloadWritten
      ensures Valid()
      ensures n == Min(accepted, old(payloadLen - payloadWritten))
      ensures payloadWritten == old(payloadWritten) + n
    {
      n := Min(accepted, payloadLen - payloadWritten);
      payloadWritten := payloadWritten + n;
    }

    /** Starts the PDU over, for sending again on a new connection. */
    method Rewind()
      modifies this`outdataWritten, this`payloadWritten
      ensures Valid() && Unsent()
    {
      outdataWritten := 0;
      payloadWritten := 0;
    }
  }

  // ---------------------------------------------------------------------------
  // Queues of PDUs, split by a flag
  // ---------------------------------------------------------------------------

  /** Bytes of header and payload of all the PDUs of s together. */
  function Total(s: seq<Pdu>): nat {
    if s == [] then 0 else s[0].Size() + Total(s[1..])
  }

  /** No PDU of s has the flag, except perhaps the last. */
  ghost predicate OnlyLastHas(s: seq<Pdu>, flag: bv32) {
    forall i :: 0 <= i < |s| - 1 ==> !s[i].Has(flag)
  }

  /** The last PDU of s has the flag. */
  predicate LastHas(s: seq<Pdu>, flag: bv32) {
    s != [] && s[|s| - 1].Has(flag)
  }

  lemma OnlyLastHasSnoc(s: seq<Pdu>, p: Pdu, flag: bv32)
    requires OnlyLastHas(s, flag) && !LastHas(s, flag)
    ensures OnlyLastHas(s + [p], flag)
  {
    var t := s + [p];
    forall i | 0 <= i < |t| - 1 ensures !t[i].Has(flag) {
      assert t[i] == s[i];
    }
  }

  /** No PDU occurs twice. */
  ghost predicate Distinct(s: seq<Pdu>) {
    forall i, j :: 0 <= i < j < |s| ==> s[i] != s[j]
  }

  /** The PDUs of s without the flag, in their order in s. Together with
      With(s, flag) it accounts for every PDU of s. */
  function Without(s: seq<Pdu>, flag: bv32): (r: seq<Pdu>)
    ensures forall i :: 0 <= i < |r| ==> !r[i].Has(flag)
    ensures |r| <= |s|
  {
    if s == [] then []
    else (if s[0].Has(flag) then [] else [s[0]]) + Without(s[1..], flag)
  }

  /** The PDUs of s with the flag, in their order in s. */
  function With(s: seq<Pdu>, flag: bv32): (r: seq<Pdu>)
    ensures forall i :: 0 <= i < |r| ==> r[i].Has(flag)
    ensures |r| <= |s|
  {
    if s == [] then []
    else (if s[0].Has(flag) then [s[0]] else []) + With(s[1..], flag)
  }

  /** A PDU is on exactly one side of the split, according to its flag. */
  lemma {:induction false} SplitMembers(s: seq<Pdu>, flag: bv32, p: Pdu)
    ensures p in Without(s, flag) <==> p in s && !p.Has(flag)
    ensures p in With(s, flag) <==> p in s && p.Has(flag)
  {
    if s != [] {
      SplitMembers(s[1..], flag, p);
      assert s == [s[0]] + s[1..];
    }
  }

  /** Scanning one more PDU adds it to exactly one side. */
  lemma {:induction false} SplitAppend(s: seq<Pdu>, p: Pdu, flag: bv32)
    ensures Without(s + [p], flag) == Without(s, flag) + (if p.Has(flag) then [] else [p])
    ensures With(s + [p], flag) == With(s, flag) + (if p.Has(flag) then [p] else [])
  {
    if s != [] {
      assert (s + [p])[1..] == s[1..] + [p];
      SplitAppend(s[1..], p, flag);
    }
  }

  /** The two sides together hold every PDU of s exactly as often as s does:
      nothing is lost and nothing duplicated. */
  lemma {:induction false} SplitIsPartition(s: seq<Pdu>, flag: bv32)
    ensures multiset(Without(s, flag)) + multiset(With(s, flag)) == multiset(s)
  {
    if s != [] {
      var t := s[1..];
      SplitIsPartition(t, flag);
      SplitStep(s, flag);
      MultisetCons(s, multiset(Without(t, flag)), multiset(With(t, flag)));
    }
  }

  lemma MultisetCons<T>(s: seq<T>, a: multiset<T>, b: multiset<T>)
    requires s != [] && a + b == multiset(s[1..])
    ensures multiset{s[0]} + a + b == multiset(s)
  {
    assert s == [s[0]] + s[1..];
  }

  /** The first PDU of s goes to exactly one side, ahead of the split of the
      rest. */
  lemma SplitStep(s: seq<Pdu>, flag: bv32)
    requires s != []
    ensures multiset(Without(s, flag)) + multiset(With(s, flag))
      == multiset{s[0]} + multiset(Without(s[1..], flag)) + multiset(With(s[1..], flag))
  {
    if s[0].Has(flag) {
      assert With(s, flag) == [s[0]] + With(s[1..], flag);
    } else {
      assert Without(s, flag) == [s[0]] + Without(s[1..], flag);
    }
  }

  /** Without keeps a queue free of duplicates. */
  lemma {:induction false} WithoutDistinct(s: seq<Pdu>, flag: bv32)
    requires Distinct(s)
    ensures Distinct(Without(s, flag))
  {
    if s != [] {
      var t := s[1..];
      assert Distinct(t) by {
        forall i, j | 0 <= i < j < |t| ensures t[i] != t[j] {
          assert t[i] == s[i + 1] && t[j] == s[j + 1];
        }
      }
      WithoutDistinct(t, flag);
      assert s[0] !in t by {
        forall k | 0 <= k < |t| ensures t[k] != s[0] {
          assert t[k] == s[k + 1];
        }
      }
      SplitMembers(t, flag, s[0]);
      DistinctCons(s[0], Without(t, flag));
    }
  }

  lemma DistinctSuffix(a: seq<Pdu>, b: seq<Pdu>)
    requires Distinct(a + b)
    ensures Distinct(b)
  {
    forall i, j | 0 <= i < j < |b| ensures b[i] != b[j] {
      assert b[i] == (a + b)[|a| + i] && b[j] == (a + b)[|a| + j];
    }
  }

  lemma DistinctCons(p: Pdu, t: seq<Pdu>)
    requires p !in t && Distinct(t)
    ensures Distinct([p] + t)
  {
    var s := [p] + t;
    forall i, j | 0 <= i < j < |s| ensures s[i] != s[j] {
      if i == 0 {
        assert s[j] == t[j - 1];
      } else {
        assert s[i] == t[i - 1] && s[j] == t[j - 1];
      }
    }
  }

  lemma DistinctSnoc(s: seq<Pdu>, p: Pdu)
    requires p !in s && Distinct(s)
    ensures Distinct(s + [p])
  {
    var t := s + [p];
    forall i, j | 0 <= i < j < |t| ensures t[i] != t[j] {
      assert t[i] == s[i];
      if j < |s| {
        assert t[j] == s[j];
      }
    }
  }

  /** A queue drained of one PDU stays free of duplicates, and the drained PDU
      occurs on neither side. */
  lemma DistinctSplit(a: seq<Pdu>, p: Pdu, b: seq<Pdu>)
    requires Distinct(a + [p] + b)
    ensures p !in a && p !in b
    ensures Distinct(a + b)
  {
    var s := a + [p] + b;
    forall k | 0 <= k < |a| ensures a[k] != p {
      assert s[k] == a[k] && s[|a|] == p;
    }
    forall k | 0 <= k < |b| ensures b[k] != p {
      assert s[|a| + 1 + k] == b[k] && s[|a|] == p;
    }
    var t := a + b;
    forall i, j | 0 <= i < j < |t| ensures t[i] != t[j] {
      var i' := if i < |a| then i else i + 1;
      var j' := if j < |a| then j else j + 1;
      assert t[i] == s[i'] && t[j] == s[j'];
    }
  }
}
