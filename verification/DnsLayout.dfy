/** The packets byte by byte, where the project's own parsers skip a field or
    share its meaning with the builder. */
module DnsLayout {
  import opened Wrappers
  import opened Base32
  import opened Fragments
  import opened DnsPackets

  /** Bytes that stand at a position. */
  ghost predicate At(p: seq<byte>, i: int, b: seq<byte>) {
    0 <= i <= i + |b| <= |p| && p[i..i + |b|] == b
  }

  /** Type 16 and class 1. */
  const TXT_IN: seq<byte> := [0, 16, 0, 1]

  /** The record every packet ends with: the root, type 41, the 1232 bytes it can
      take, no extended code or flags, and no data. */
  const EDNS: seq<byte> := [0, 0, 41, 4, 208, 0, 0, 0, 0, 0, 0]

  /** A header: transaction, flags, one question, the answers, no authority and one
      additional record. */
  ghost function HeaderBytes(txid: int, hi: byte, lo: byte, answers: byte): seq<byte> {
    [txid % 65536 / 256, txid % 65536 % 256, hi, lo, 0, 1, 0, answers, 0, 0, 0, 1]
  }

  lemma HeaderIs(txid: int, flags: nat, answers: nat)
    requires flags < 65536 && answers < 256
    ensures Header(txid, flags, answers) == HeaderBytes(txid, flags / 256, flags % 256, answers)
  {
  }

  lemma FixedFields()
    ensures TypeClass() == TXT_IN && OptRecord() == EDNS
  {
  }

  /** A query: recursion desired and nothing else set, the name, type and class,
      and the size the client takes. */
  lemma {:induction false} QueryLayout(txid: int, name: string)
    requires NameBytes(name).Ok?
    ensures var n := NameBytes(name).value;
      QueryPacket(txid, name) == Ok(HeaderBytes(txid, 1, 0, 0) + n + TXT_IN + EDNS)
  {
    hide NameBytes;
    HeaderIs(txid, 256, 0);
    FixedFields();
  }

  /** The flags of an answer: response and authoritative, the code, and nothing
      else. */
  lemma {:induction false} AnswerFlags(rcode: int)
    ensures Flags(rcode) / 256 == 128 + 4 && Flags(rcode) % 256 == rcode % 16
  {
  }

  ghost predicate Carries(payload: Option<seq<byte>>, rcode: int) {
    payload.Some? && rcode == 0
  }

  /** Every answer that builds, byte by byte: the flags in the third and fourth
      byte, the question again, the record with type, class, a time to live of
      zero and its length when there is a payload, and the size record. */
  lemma {:induction false} AnswerLayout(txid: int, name: string, payload: Option<seq<byte>>, rcode: int)
    requires AnswerPacket(txid, name, payload, rcode).Ok?
    ensures NameBytes(name).Ok?
    ensures var n, p := NameBytes(name).value, AnswerPacket(txid, name, payload, rcode).value;
      && (!Carries(payload, rcode) ==> p == HeaderBytes(txid, 132, rcode % 16, 0) + n + TXT_IN + EDNS)
      && (Carries(payload, rcode) ==>
            var text := TxtPieces(payload.value);
            && |text| < 65536
            && p == HeaderBytes(txid, 132, rcode % 16, 1) + n + TXT_IN
                    + ((n + TXT_IN + [0, 0, 0, 0] + [|text| / 256, |text| % 256] + text) + EDNS))
  {
    hide NameBytes, TxtPieces;
    HeaderIs(txid, Flags(rcode), if Carries(payload, rcode) then 1 else 0);
    AnswerFlags(rcode);
    FixedFields();
  }

  /** On the packet itself: an answer is marked as one, authoritative, and carries
      its code; a query is marked as one that asks for recursion. */
  lemma {:induction false} FlagBytes(txid: int, name: string, payload: Option<seq<byte>>, rcode: int)
    ensures AnswerPacket(txid, name, payload, rcode).Ok? ==>
      At(AnswerPacket(txid, name, payload, rcode).value, 2, [132, rcode % 16])
    ensures QueryPacket(txid, name).Ok? ==> At(QueryPacket(txid, name).value, 2, [1, 0])
  {
    hide NameBytes, AnswerPacket, QueryPacket, TxtPieces;
    if AnswerPacket(txid, name, payload, rcode).Ok? {
      AnswerLayout(txid, name, payload, rcode);
    }
    if NameBytes(name).Ok? {
      QueryLayout(txid, name);
    } else {
      NoQuery(txid, name);
    }
  }

  lemma NoQuery(txid: int, name: string)
    requires !NameBytes(name).Ok?
    ensures !QueryPacket(txid, name).Ok?
  {
    hide NameBytes;
  }

  // ---- TXT data and frames

  /** Byte `i` of the payload, behind one length byte for every 255. */
  lemma {:induction false} TxtByte(payload: seq<byte>, i: nat)
    requires i < |payload|
    ensures i + i / 255 + 1 < |TxtPieces(payload)| && TxtPieces(payload)[i + i / 255 + 1] == payload[i]
    decreases |payload|
  {
    if 255 < |payload| && 255 <= i {
      TxtByte(payload[255..], i - 255);
      assert i / 255 == (i - 255) / 255 + 1;
      assert TxtPieces(payload)[256..] == TxtPieces(payload[255..]);
    }
  }

  /** String `k` announces 255 bytes, the last one what is left. */
  lemma {:induction false} TxtLengthByte(payload: seq<byte>, k: nat)
    requires k == 0 || 255 * k < |payload|
    ensures 256 * k < |TxtPieces(payload)|
    ensures TxtPieces(payload)[256 * k] == if 255 * (k + 1) <= |payload| then 255 else |payload| - 255 * k
    decreases |payload|
  {
    if k != 0 {
      TxtLengthByte(payload[255..], k - 1);
      assert TxtPieces(payload)[256..] == TxtPieces(payload[255..]);
    }
  }

  /** A frame: the length, high byte first, and the payload. */
  lemma {:induction false} FrameLayout(payload: seq<byte>)
    ensures Frame(payload) == if |payload| <= 65535 then Ok([|payload| / 256, |payload| % 256] + payload) else WireError
  {
  }
}
