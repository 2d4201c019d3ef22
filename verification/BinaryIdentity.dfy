/** Content checks that tell the compiled agent binary from any other file. */
module BinaryIdentity {
  import opened Prelude

  newtype byte = b: int | 0 <= b < 256

  type Bytes = seq<byte>

  /** `lazy-agent ok` */
  const SENTINEL: Bytes := [108, 97, 122, 121, 45, 97, 103, 101, 110, 116, 32, 111, 107]

  const MIN_AGENT_BINARY_SIZE: nat := 1024

  const SCAN_CHUNK: nat := 4 * 1024 * 1024

  const ELF_MAGIC: Bytes := [0x7f, 0x45, 0x4c, 0x46]

  const MACHO_MAGICS: set<Bytes> := {
    [0xcf, 0xfa, 0xed, 0xfe], [0xce, 0xfa, 0xed, 0xfe], [0xca, 0xfe, 0xba, 0xbe]}

  datatype Reason = Missing | NotAFile | Placeholder(size: nat) | MachO | NotElf | BareBun(size: nat)

  datatype Verdict = Accepted | Rejected(reason: Reason)

  /** What `stat` and `open` find at a path. */
  datatype Entry = Absent | Regular(bytes: Bytes) | Special

  function HeaderVerdict(head: Bytes): Option<Reason> {
    if head == ELF_MAGIC then None
    else if head in MACHO_MAGICS then Some(MachO)
    else Some(NotElf)
  }

  /** `buf.includes(p)` */
  predicate Includes(buf: Bytes, p: Bytes) {
    exists i :: 0 <= i <= |buf| - |p| && Occurs(buf, p, i)
  }

  predicate Occurs(buf: Bytes, p: Bytes, i: int) {
    0 <= i <= |buf| - |p| && buf[i..i + |p|] == p
  }

  /** The check of bytes held in memory. */
  function VerifyBytes(buf: Bytes): Verdict {
    if |buf| < MIN_AGENT_BINARY_SIZE then Rejected(Placeholder(|buf|))
    else
      var header := HeaderVerdict(buf[..4]);
      if header.Some? then Rejected(header.value)
      else if Includes(buf, SENTINEL) then Accepted
      else Rejected(BareBun(|buf|))
  }

  function Min(a: nat, b: nat): nat { if a < b then a else b }

  /** What one read at `position` returns when the system is willing to give `offer` bytes. */
  function BytesRead(offer: nat, size: nat, position: nat): nat
    requires position <= size
  {
    Min(offer, Min(SCAN_CHUNK, size - position))
  }

  /** How far the reads get before the end of the file, or before one returns nothing. */
  function Reached(size: nat, offers: seq<nat>, position: nat): (end: nat)
    requires position <= size
    ensures position <= end <= size
    decreases |offers|
  {
    if offers == [] || position == size then position
    else
      var n := BytesRead(offers[0], size, position);
      if n == 0 then position else Reached(size, offers[1..], position + n)
  }

  /** The last `n` bytes of `s`, or all of them. */
  function Suffix(s: Bytes, n: nat): Bytes {
    if |s| <= n then s else s[|s| - n..]
  }

  lemma OccursLonger(a: Bytes, b: Bytes, p: Bytes, i: int)
    requires Occurs(a, p, i)
    ensures Occurs(a + b, p, i)
  {
    assert (a + b)[i..i + |p|] == a[i..i + |p|];
  }

  lemma SliceOfDrop(s: Bytes, d: nat, i: nat, n: nat)
    requires d + i + n <= |s|
    ensures s[d..][i..i + n] == s[d + i..d + i + n]
  {
  }

  /**
   * A match that is not inside `a` and not past it lies in the last
   * `|p| - 1` bytes of `a` followed by `b`.
   */
  lemma {:induction false} CarryFindsMatch(a: Bytes, b: Bytes, p: Bytes)
    requires |p| > 0 && !Includes(a, p)
    ensures Includes(a + b, p) <==> Includes(Suffix(a, |p| - 1) + b, p)
  {
    var carry := Suffix(a, |p| - 1);
    var d := |a| - |carry|;
    var (whole, window) := (a + b, carry + b);
    assert window == whole[d..];
    if i :| Occurs(whole, p, i) {
      if i < d {
        assert a[i..i + |p|] == whole[i..i + |p|];
        assert Occurs(a, p, i);
      }
      SliceOfDrop(whole, d, i - d, |p|);
      assert Occurs(window, p, i - d);
    }
    if i :| Occurs(window, p, i) {
      SliceOfDrop(whole, d, i, |p|);
      assert Occurs(whole, p, d + i);
    }
  }

  lemma SuffixOfSuffix(a: Bytes, b: Bytes, n: nat)
    ensures Suffix(Suffix(a, n) + b, n) == Suffix(a + b, n)
  {
  }

  /** The verdict on a file whose sentinel search sees only the first `end` bytes. */
  ghost function VerdictAfter(bytes: Bytes, end: nat): Verdict
    requires end <= |bytes|
  {
    if |bytes| >= MIN_AGENT_BINARY_SIZE && HeaderVerdict(bytes[..4]).None? && !Includes(bytes[..end], SENTINEL)
    then Rejected(BareBun(|bytes|))
    else VerifyBytes(bytes)
  }

  /**
   * The check of a file, read in chunks. `offers` says how much each read call
   * is willing to return: reads may be short, and one may return nothing.
   */
  method VerifyFile(entry: Entry, offers: seq<nat>) returns (verdict: Verdict)
    ensures entry.Absent? ==> verdict == Rejected(Missing)
    ensures entry.Special? ==> verdict == Rejected(NotAFile)
    ensures entry.Regular? ==> verdict == VerdictAfter(entry.bytes, Reached(|entry.bytes|, offers, 0))
  {
    match entry {
      case Absent => return Rejected(Missing);
      case Special => return Rejected(NotAFile);
      case Regular(bytes) =>
        if |bytes| < MIN_AGENT_BINARY_SIZE {
          return Rejected(Placeholder(|bytes|));
        }
        var header := HeaderVerdict(bytes[..4]);
        if header.Some? {
          return Rejected(header.value);
        }
        var found := Scan(bytes, offers);
        ReachedPrefix(bytes, Reached(|bytes|, offers, 0));
        return if found then Accepted else Rejected(BareBun(|bytes|));
    }
  }

  lemma ReachedPrefix(bytes: Bytes, end: nat)
    requires end <= |bytes|
    ensures Includes(bytes[..end], SENTINEL) ==> Includes(bytes, SENTINEL)
  {
    assert bytes[..end] + bytes[end..] == bytes;
    if i :| Occurs(bytes[..end], SENTINEL, i) {
      OccursLonger(bytes[..end], bytes[end..], SENTINEL, i);
    }
  }

  /** The loop over overlapping chunks: it finds the sentinel in whatever the reads reached. */
  method Scan(bytes: Bytes, offers: seq<nat>) returns (found: bool)
    ensures found <==> Includes(bytes[..Reached(|bytes|, offers, 0)], SENTINEL)
  {
    var overlap := |SENTINEL| - 1;
    var position: nat, carry, k := 0, [], 0;
    while position < |bytes| && k < |offers|
      invariant k <= |offers| && position <= |bytes|
      invariant Reached(|bytes|, offers[k..], position) == Reached(|bytes|, offers, 0)
      invariant carry == Suffix(bytes[..position], overlap)
      invariant !Includes(bytes[..position], SENTINEL)
      decreases |offers| - k
    {
      var bytesRead := BytesRead(offers[k], |bytes|, position);
      assert offers[k..][0] == offers[k] && offers[k..][1..] == offers[k + 1..];
      if bytesRead == 0 {
        break;
      }
      var chunk := bytes[position..position + bytesRead];
      var window := carry + chunk;
      ghost var consumed := bytes[..position] + chunk;
      assert consumed == bytes[..position + bytesRead];
      CarryFindsMatch(bytes[..position], chunk, SENTINEL);
      if Includes(window, SENTINEL) {
        ghost var end := Reached(|bytes|, offers, 0);
        assert bytes[..end] == consumed + bytes[position + bytesRead..end];
        ghost var i :| Occurs(consumed, SENTINEL, i);
        OccursLonger(consumed, bytes[position + bytesRead..end], SENTINEL, i);
        return true;
      }
      SuffixOfSuffix(bytes[..position], chunk, overlap);
      carry := Suffix(window, overlap);
      position := position + bytesRead;
      k := k + 1;
    }
    return false;
  }

  /**
   * Chunked and in-memory verdicts agree, however short the reads are, unless
   * the reads stop before the first sentinel of an acceptable file.
   */
  lemma ScanAgreesIff(bytes: Bytes, offers: seq<nat>)
    ensures var end := Reached(|bytes|, offers, 0);
      && (VerdictAfter(bytes, end) == VerifyBytes(bytes) <==>
            !(VerifyBytes(bytes).Accepted? && !Includes(bytes[..end], SENTINEL)))
      && (end == |bytes| ==> VerdictAfter(bytes, end) == VerifyBytes(bytes))
  {
    assert bytes[..|bytes|] == bytes;
  }

  /** As many reads as bytes cover the file, as long as none of them returns nothing. */
  lemma {:induction false} EnoughReadsCover(size: nat, offers: seq<nat>, position: nat)
    requires position <= size && |offers| >= size - position
    requires forall i :: 0 <= i < |offers| ==> offers[i] > 0
    ensures Reached(size, offers, position) == size
    decreases |offers|
  {
    if offers != [] && position < size {
      EnoughReadsCover(size, offers[1..], position + BytesRead(offers[0], size, position));
    }
  }

  // ---- The verdicts, byte by byte

  /** The text, as bytes, stands at position `i`. */
  predicate HasText(buf: Bytes, text: string, i: int) {
    0 <= i <= |buf| - |text| && forall k :: 0 <= k < |text| ==> buf[i + k] as int == text[k] as int
  }

  ghost predicate SaysOk(buf: Bytes) {
    exists i :: HasText(buf, "lazy-agent ok", i)
  }

  predicate IsElf(buf: Bytes)
    requires |buf| >= 4
  {
    buf[0] == 0x7f && HasText(buf, "ELF", 1)
  }

  predicate IsMachO(buf: Bytes)
    requires |buf| >= 4
  {
    || (buf[0] in {0xce, 0xcf} && buf[1] == 0xfa && buf[2] == 0xed && buf[3] == 0xfe)
    || (buf[0] == 0xca && buf[1] == 0xfe && buf[2] == 0xba && buf[3] == 0xbe)
  }

  lemma SentinelText(buf: Bytes, i: int)
    ensures Occurs(buf, SENTINEL, i) <==> HasText(buf, "lazy-agent ok", i)
  {
    var text := "lazy-agent ok";
    if 0 <= i <= |buf| - |text| {
      var part := buf[i..i + |text|];
      forall k | 0 <= k < |text| ensures SENTINEL[k] as int == text[k] as int && part[k] == buf[i + k] {
      }
      if HasText(buf, text, i) {
        assert part == SENTINEL;
      }
    }
  }

  lemma HeaderIs(head: Bytes)
    requires |head| == 4
    ensures head == ELF_MAGIC <==> IsElf(head)
    ensures head in MACHO_MAGICS <==> IsMachO(head)
  {
    assert head == [head[0], head[1], head[2], head[3]];
    assert "ELF"[0] as int == 0x45 && "ELF"[1] as int == 0x4c && "ELF"[2] as int == 0x46;
  }

  /** Every verdict, by the bytes: too small, then the header, then the sentinel. */
  lemma VerdictIff(buf: Bytes, reason: Reason)
    ensures VerifyBytes(buf).Accepted? <==> |buf| >= 1024 && IsElf(buf) && SaysOk(buf)
    ensures VerifyBytes(buf) == Rejected(reason) <==>
      match reason
      case Placeholder(n) => n == |buf| < 1024
      case MachO => |buf| >= 1024 && IsMachO(buf)
      case NotElf => |buf| >= 1024 && !IsMachO(buf) && !IsElf(buf)
      case BareBun(n) => n == |buf| >= 1024 && IsElf(buf) && !SaysOk(buf)
      case _ => false
  {
    forall i ensures Occurs(buf, SENTINEL, i) <==> HasText(buf, "lazy-agent ok", i) {
      SentinelText(buf, i);
    }
    if |buf| >= 4 {
      HeaderIs(buf[..4]);
    }
  }

  // ---- How far the reads get

  /** What the reads return together while the file lasts. */
  function Offered(offers: seq<nat>): nat {
    if offers == [] then 0 else Min(offers[0], SCAN_CHUNK) + Offered(offers[1..])
  }

  /** Reads that all return something get as far as they offer, each at most a chunk, or to the end. */
  lemma {:induction false} ReachedIs(size: nat, offers: seq<nat>, position: nat)
    requires position <= size && forall i :: 0 <= i < |offers| ==> offers[i] > 0
    ensures Reached(size, offers, position) == Min(size, position + Offered(offers))
    decreases |offers|
  {
    if offers != [] && position < size {
      ReachedIs(size, offers[1..], position + BytesRead(offers[0], size, position));
    }
  }

  /** A read that returns nothing ends the search. */
  lemma {:induction false} ReachedStops(size: nat, offers: seq<nat>, position: nat, k: nat)
    requires position <= size && k < |offers| && offers[k] == 0
    ensures Reached(size, offers, position) == Reached(size, offers[..k], position)
    decreases |offers|
  {
    if k > 0 && position < size {
      assert offers[..k][1..] == offers[1..][..k - 1];
      ReachedStops(size, offers[1..], position + BytesRead(offers[0], size, position), k - 1);
    }
  }
}
