/** The write-ahead log: framed, checksummed records in a file of bytes. */
module Wal {
  import opened Bytes
  import opened Crc

  type Payload = seq<Byte>
  type File = seq<Byte>

  const HEADER_LEN := 8

  predicate Framable(p: Payload) {
    |p| < U32_LIMIT
  }

  /** Length, checksum, payload. */
  function Frame(p: Payload): (f: File)
    ensures |f| == HEADER_LEN + |p|
  {
    ToLe(|p|, 4) + WordBytes(Checksum(p)) + p
  }

  function Framed(ps: seq<Payload>): File {
    if ps == [] then [] else Framed(ps[..|ps| - 1]) + Frame(ps[|ps| - 1])
  }

  /** The file goes on with the whole record of `p`. */
  ghost predicate StartsWith(file: File, p: Payload) {
    Framable(p) && Frame(p) <= file
  }

  /** What a replay of `file` must report: the longest run of whole, intact records. */
  ghost predicate Replays(file: File, records: seq<Payload>, valid: nat) {
    && (forall i :: 0 <= i < |records| ==> Framable(records[i]))
    && valid <= |file| && Framed(records) == file[..valid]
    && !(exists p :: StartsWith(file[valid..], p))
  }

  // ----- One record -----

  function LengthOf(header: File): nat
    requires |header| == HEADER_LEN
  {
    FromLe(header[..4])
  }

  function ChecksumOf(header: File): Word
    requires |header| == HEADER_LEN
  {
    WordOf(header[4..])
  }

  lemma FrameReads(p: Payload, file: File)
    requires StartsWith(file, p)
    ensures HEADER_LEN + |p| <= |file|
    ensures LengthOf(file[..HEADER_LEN]) == |p|
    ensures ChecksumOf(file[..HEADER_LEN]) == Checksum(p)
    ensures file[HEADER_LEN..HEADER_LEN + |p|] == p
  {
    hide ToLe, WordBytes, Checksum, FromLe, WordOf;
    var f := Frame(p);
    assert f[..HEADER_LEN][..4] == ToLe(|p|, 4);
    assert f[..HEADER_LEN][4..] == WordBytes(Checksum(p));
    assert file[..HEADER_LEN] == f[..HEADER_LEN];
    assert f[HEADER_LEN..] == p;
    assert file[HEADER_LEN..HEADER_LEN + |p|] == f[HEADER_LEN..];
    Widths();
    LeRoundTrip(|p|, 4);
    WordRoundTrip(Checksum(p));
  }

  lemma ReadsFrame(p: Payload, file: File)
    requires Framable(p) && HEADER_LEN + |p| <= |file|
    requires LengthOf(file[..HEADER_LEN]) == |p| && ChecksumOf(file[..HEADER_LEN]) == Checksum(p)
    requires file[HEADER_LEN..HEADER_LEN + |p|] == p
    ensures StartsWith(file, p)
  {
    hide ToLe, WordBytes, Checksum, FromLe, WordOf;
    var h := file[..HEADER_LEN];
    Widths();
    LeRoundTrip(|p|, 4);
    FromLeInjective(h[..4], ToLe(|p|, 4));
    WordRoundTrip(Checksum(p));
    WordInjective(h[4..], WordBytes(Checksum(p)));
    assert h == h[..4] + h[4..];
    assert file[..HEADER_LEN + |p|] == h + p;
    assert Frame(p) == file[..|Frame(p)|];
  }

  lemma {:induction false} FromLeInjective(s: seq<Byte>, t: seq<Byte>)
    requires |s| == |t| && FromLe(s) == FromLe(t)
    ensures s == t
  {
    if s != [] {
      NumInjective(s[0], t[0], FromLe(s[1..]), FromLe(t[1..]));
      FromLeInjective(s[1..], t[1..]);
      assert s == [s[0]] + s[1..] && t == [t[0]] + t[1..];
    }
  }

  lemma NumInjective(a: Byte, b: Byte, m: nat, n: nat)
    requires Num(a) + 256 * m == Num(b) + 256 * n
    ensures a == b && m == n
  {
    assert m == n;
    assert a as int == b as int;
  }

  /** Records delimit themselves: a file starts with at most one. */
  lemma OneRecord(file: File, p: Payload, q: Payload)
    requires StartsWith(file, p) && StartsWith(file, q)
    ensures p == q
  {
    hide Frame, StartsWith;
    FrameReads(p, file);
    FrameReads(q, file);
  }

  // ----- Many records -----

  lemma FramedSnoc(ps: seq<Payload>, p: Payload)
    ensures Framed(ps + [p]) == Framed(ps) + Frame(p)
  {
    assert (ps + [p])[..|ps|] == ps;
  }

  lemma {:induction false} FramedParts(ps: seq<Payload>, qs: seq<Payload>)
    ensures Framed(ps + qs) == Framed(ps) + Framed(qs)
  {
    hide Frame;
    if qs == [] {
      assert ps + qs == ps;
    } else {
      FramedParts(ps, qs[..|qs| - 1]);
      assert (ps + qs)[..|ps + qs| - 1] == ps + qs[..|qs| - 1];
    }
  }

  /** At most one report fits a file. */
  lemma {:induction false} ReplayUnique(file: File, ps: seq<Payload>, m: nat, qs: seq<Payload>, n: nat)
    requires Replays(file, ps, m) && Replays(file, qs, n)
    ensures ps == qs && m == n
  {
    hide Frame, StartsWith, Framed;
    if |ps| <= |qs| {
      CommonPrefix(file, ps, m, qs, n, |ps|);
      NoMore(file, ps, m, qs, n);
    } else {
      CommonPrefix(file, qs, n, ps, m, |qs|);
      NoMore(file, qs, n, ps, m);
    }
  }

  lemma {:induction false} CommonPrefix(file: File, ps: seq<Payload>, m: nat, qs: seq<Payload>, n: nat, k: nat)
    requires Replays(file, ps, m) && Replays(file, qs, n) && k <= |ps| <= |qs|
    ensures ps[..k] == qs[..k]
  {
    hide Frame, StartsWith, Framed;
    if k > 0 {
      CommonPrefix(file, ps, m, qs, n, k - 1);
      Nth(file, ps, m, k - 1);
      Nth(file, qs, n, k - 1);
      OneRecord(file[|Framed(ps[..k - 1])|..], ps[k - 1], qs[k - 1]);
      assert ps[..k] == ps[..k - 1] + [ps[k - 1]] && qs[..k] == qs[..k - 1] + [qs[k - 1]];
    }
  }

  /** The `i`-th record stands right after the ones before it. */
  lemma Nth(file: File, ps: seq<Payload>, m: nat, i: nat)
    requires Replays(file, ps, m) && i < |ps|
    ensures |Framed(ps[..i])| <= |file| && StartsWith(file[|Framed(ps[..i])|..], ps[i])
  {
    hide Frame, Framed;
    FramedAround(ps, i);
    InMiddle(file, Framed(ps[..i]), Frame(ps[i]), Framed(ps[i + 1..]));
  }

  lemma FramedAround(ps: seq<Payload>, i: nat)
    requires i < |ps|
    ensures Framed(ps) == Framed(ps[..i]) + (Frame(ps[i]) + Framed(ps[i + 1..]))
  {
    hide Frame, Framed;
    var before, p, after := ps[..i], ps[i], ps[i + 1..];
    FramedThree(before, p, after);
    assert ps == before + ([p] + after);
  }

  lemma FramedThree(before: seq<Payload>, p: Payload, after: seq<Payload>)
    ensures Framed(before + ([p] + after)) == Framed(before) + (Frame(p) + Framed(after))
  {
    hide Frame;
    FramedParts(before, [p] + after);
    FramedParts([p], after);
    FramedSnoc([], p);
    assert [] + [p] == [p];
  }

  lemma InMiddle(file: File, a: File, b: File, c: File)
    requires a + (b + c) <= file
    ensures b <= file[|a|..]
  {
    assert file[|a|..|a| + |b|] == (a + (b + c))[|a|..|a| + |b|] == b;
  }

  lemma NoMore(file: File, ps: seq<Payload>, m: nat, qs: seq<Payload>, n: nat)
    requires Replays(file, ps, m) && Replays(file, qs, n) && |ps| <= |qs| && qs[..|ps|] == ps[..|ps|]
    ensures ps == qs && m == n
  {
    hide Frame, StartsWith, Framed;
    assert ps[..|ps|] == ps;
    if |ps| < |qs| {
      Nth(file, qs, n, |ps|);
    } else {
      assert qs[..|qs|] == qs;
    }
  }

  // ----- Cuts and corruption -----

  ghost predicate AllFramable(ps: seq<Payload>) {
    forall i :: 0 <= i < |ps| ==> Framable(ps[i])
  }

  lemma FrameStarts(p: Payload)
    requires Framable(p)
    ensures StartsWith(Frame(p), p)
  {
  }

  /** A cut inside or right before the next record leaves the records before it. */
  lemma CutReplays(done: seq<Payload>, next: Payload, cut: nat)
    requires AllFramable(done) && Framable(next) && cut < |Frame(next)|
    ensures Replays(Framed(done) + Frame(next)[..cut], done, |Framed(done)|)
  {
    hide Frame, Framed, StartsWith;
    var file := Framed(done) + Frame(next)[..cut];
    var rest := file[|Framed(done)|..];
    assert rest == Frame(next)[..cut];
    forall p
      ensures !StartsWith(rest, p)
    {
      if StartsWith(rest, p) {
        PrefixStarts(rest, Frame(next), p);
        FrameStarts(next);
        OneRecord(Frame(next), p, next);
      }
    }
  }

  lemma PrefixStarts(part: File, whole: File, p: Payload)
    requires StartsWith(part, p) && part <= whole
    ensures StartsWith(whole, p) && |Frame(p)| <= |part|
  {
  }

  lemma WholeReplays(ps: seq<Payload>)
    requires AllFramable(ps)
    ensures Replays(Framed(ps), ps, |Framed(ps)|)
  {
  }

  /** `n` records lie whole within the first `cut` bytes, and no more. */
  ghost predicate WholeWithin(ps: seq<Payload>, cut: nat, n: nat) {
    && n <= |ps| && |Framed(ps[..n])| <= cut
    && (n < |ps| ==> cut < |Framed(ps[..n + 1])|)
  }

  /** Cut anywhere, a log replays to exactly the records wholly before the cut. */
  lemma {:induction false} CutAnywhere(ps: seq<Payload>, cut: nat) returns (n: nat)
    requires AllFramable(ps) && cut <= |Framed(ps)|
    ensures WholeWithin(ps, cut, n) && Replays(Framed(ps)[..cut], ps[..n], |Framed(ps[..n])|)
  {
    hide Frame, StartsWith, Replays, Framed;
    assert ps[..|ps|] == ps;
    if cut == |Framed(ps)| {
      n := |ps|;
      WholeReplays(ps);
      assert Framed(ps)[..cut] == Framed(ps);
    } else {
      n := LastBefore(ps, cut, |ps|);
      FramedSnoc(ps[..n], ps[n]);
      assert ps[..n] + [ps[n]] == ps[..n + 1];
      FramedParts(ps[..n + 1], ps[n + 1..]);
      assert ps == ps[..n + 1] + ps[n + 1..];
      var done := Framed(ps[..n]);
      CutReplays(ps[..n], ps[n], cut - |done|);
      CutMiddle(done, Frame(ps[n]), Framed(ps[n + 1..]), cut);
    }
  }

  lemma CutMiddle(a: File, b: File, c: File, cut: nat)
    requires |a| <= cut <= |a| + |b|
    ensures (a + b + c)[..cut] == a + b[..cut - |a|]
  {
  }

  lemma {:induction false} LastBefore(ps: seq<Payload>, cut: nat, m: nat) returns (n: nat)
    requires m <= |ps| && cut < |Framed(ps[..m])|
    ensures n < m && |Framed(ps[..n])| <= cut < |Framed(ps[..n + 1])|
    decreases m
  {
    hide Frame;
    if |Framed(ps[..m - 1])| <= cut {
      n := m - 1;
    } else {
      n := LastBefore(ps, cut, m - 1);
    }
  }

  ghost predicate Boundary(ps: seq<Payload>, cut: nat) {
    exists m :: 0 <= m <= |ps| && |Framed(ps[..m])| == cut
  }

  /** Whatever a replay of a cut log reports is exactly that, and it is short of the cut only off a boundary. */
  lemma CutReport(ps: seq<Payload>, cut: nat, records: seq<Payload>, valid: nat)
    requires AllFramable(ps) && cut <= |Framed(ps)| && Replays(Framed(ps)[..cut], records, valid)
    ensures WholeWithin(ps, cut, |records|) && records == ps[..|records|] && valid == |Framed(records)|
    ensures valid < cut <==> !Boundary(ps, cut)
  {
    hide Framed, Replays;
    var n := CutAnywhere(ps, cut);
    ReplayUnique(Framed(ps)[..cut], records, valid, ps[..n], |Framed(ps[..n])|);
    forall m | 0 <= m <= |ps| && valid < cut
      ensures |Framed(ps[..m])| != cut
    {
      if m <= n {
        FramedGrows(ps, m, n);
      } else {
        FramedGrows(ps, n + 1, m);
      }
    }
  }

  lemma {:induction false} FramedGrows(ps: seq<Payload>, m: nat, n: nat)
    requires m <= n <= |ps|
    ensures |Framed(ps[..m])| <= |Framed(ps[..n])|
    decreases n
  {
    hide Frame;
    if m < n {
      FramedGrows(ps, m, n - 1);
      assert ps[..n][..n - 1] == ps[..n - 1];
    }
  }

  /** A payload damaged within four consecutive bytes stops replay right before its record, whatever follows. */
  lemma DamageStops(done: seq<Payload>, front: File, s: File, t: File, back: File, rest: File)
    requires AllFramable(done) && Framable(front + s + back) && |s| == |t| <= 4 && s != t
    ensures var written, damaged := Frame(front + s + back), front + t + back;
      Replays(Framed(done) + (written[..HEADER_LEN] + damaged + rest), done, |Framed(done)|)
  {
    hide Frame, Framed, StartsWith, Checksum;
    var p, q := front + s + back, front + t + back;
    var tail := Frame(p)[..HEADER_LEN] + q + rest;
    var file := Framed(done) + tail;
    assert file[|Framed(done)|..] == tail;
    FrameStarts(p);
    FrameReads(p, Frame(p));
    BurstDetected(front, s, t, back);
    assert tail[..HEADER_LEN] == Frame(p)[..HEADER_LEN];
    assert tail[HEADER_LEN..HEADER_LEN + |q|] == q;
    forall r
      ensures !StartsWith(tail, r)
    {
      if StartsWith(tail, r) {
        FrameReads(r, tail);
      }
    }
  }

  /** Once the torn tail is cut off, appended records follow the ones replayed. */
  lemma RepairedAppends(file: File, records: seq<Payload>, valid: nat, more: seq<Payload>)
    requires Replays(file, records, valid) && AllFramable(more)
    ensures Replays(file[..valid] + Framed(more), records + more, valid + |Framed(more)|)
  {
    hide Frame, Framed, StartsWith, Replays;
    FramedParts(records, more);
    ReplaysParts(file, records, valid);
    WholeReplays(records + more);
  }

  lemma ReplaysParts(file: File, records: seq<Payload>, valid: nat)
    requires Replays(file, records, valid)
    ensures AllFramable(records) && valid <= |file| && Framed(records) == file[..valid]
  {
  }

  // ----- The log as it runs -----

  datatype ReadOutcome = Full(bytes: seq<Byte>) | Partial | Eof

  /** Reads `n` bytes at the reader's position, telling a clean end from a short read. */
  function ReadExact(file: File, position: nat, n: nat): (r: ReadOutcome)
    requires position <= |file|
    ensures r.Full? <==> n <= |file| - position
    ensures r.Full? ==> r.bytes == file[position..position + n]
    ensures r.Eof? <==> n > 0 && position == |file|
  {
    if n == 0 then Full([])
    else if position == |file| then Eof
    else if n <= |file| - position then Full(file[position..position + n])
    else Partial
  }

  method Replay(file: File) returns (records: seq<Payload>, truncated: bool, valid: nat)
    ensures Replays(file, records, valid)
    ensures truncated <==> valid < |file|
  {
    hide Framed, Frame, StartsWith, LengthOf, ChecksumOf;
    records, truncated, valid := [], false, 0;
    NothingFramed();
    while true
      invariant valid <= |file| && !truncated
      invariant AllFramable(records) && Framed(records) == file[..valid]
      decreases |file| - valid
    {
      var header := ReadExact(file, valid, HEADER_LEN);
      if !header.Full? {
        TooShort(file[valid..]);
        truncated := header.Partial?;
        break;
      }
      var len := LengthOf(header.bytes);
      var expected := ChecksumOf(header.bytes);
      LengthBound(header.bytes);
      assert header.bytes == file[valid..][..HEADER_LEN];
      if len > |file| - (valid + HEADER_LEN) {
        Overlong(file[valid..]);
        truncated := true;
        break;
      }
      var payload := ReadExact(file, valid + HEADER_LEN, len).bytes;
      assert payload == file[valid..][HEADER_LEN..HEADER_LEN + len];
      var crc := Crc32(payload);
      if crc != expected {
        Corrupt(file[valid..]);
        truncated := true;
        break;
      }
      ReadsFrame(payload, file[valid..]);
      Advance(file, valid, records, payload);
      valid := valid + HEADER_LEN + len;
      records := records + [payload];
    }
  }

  lemma NothingFramed()
    ensures Framed([]) == []
  {
  }

  lemma LengthBound(header: File)
    requires |header| == HEADER_LEN
    ensures LengthOf(header) < U32_LIMIT
  {
    hide FromLe, Pow256;
    FromLeBound(header[..4]);
    Widths();
  }

  lemma TooShort(file: File)
    requires |file| < HEADER_LEN
    ensures forall p :: !StartsWith(file, p)
  {
    hide Checksum;
  }

  lemma Overlong(file: File)
    requires |file| >= HEADER_LEN && LengthOf(file[..HEADER_LEN]) > |file| - HEADER_LEN
    ensures forall p :: !StartsWith(file, p)
  {
    hide StartsWith, Frame, LengthOf;
    forall p
      ensures !StartsWith(file, p)
    {
      if StartsWith(file, p) {
        FrameReads(p, file);
      }
    }
  }

  lemma Corrupt(file: File)
    requires |file| >= HEADER_LEN
    requires var len := LengthOf(file[..HEADER_LEN]);
      len <= |file| - HEADER_LEN && Checksum(file[HEADER_LEN..HEADER_LEN + len]) != ChecksumOf(file[..HEADER_LEN])
    ensures forall p :: !StartsWith(file, p)
  {
    hide StartsWith, Frame, LengthOf, ChecksumOf, Checksum;
    forall p
      ensures !StartsWith(file, p)
    {
      if StartsWith(file, p) {
        FrameReads(p, file);
      }
    }
  }

  lemma Advance(file: File, valid: nat, records: seq<Payload>, p: Payload)
    requires valid <= |file| && Framed(records) == file[..valid] && StartsWith(file[valid..], p)
    ensures |Frame(p)| <= |file| - valid && Framed(records + [p]) == file[..valid + |Frame(p)|]
    ensures |Frame(p)| == HEADER_LEN + |p|
  {
    hide Frame;
    FramedSnoc(records, p);
    assert file[valid..][..|Frame(p)|] == Frame(p);
    assert file[..valid + |Frame(p)|] == file[..valid] + file[valid..][..|Frame(p)|];
  }

  class WalFile {
    var file: File

    constructor (file: File)
      ensures this.file == file
    {
      this.file := file;
    }

    method Append(payload: Payload) returns (ok: bool)
      modifies this
      ensures ok == Framable(payload)
      ensures file == old(file) + (if ok then Frame(payload) else [])
    {
      hide Checksum;
      if |payload| >= U32_LIMIT {
        return false;
      }
      var record := ToLe(|payload|, 4);
      var crc := Crc32(payload);
      record := record + WordBytes(crc);
      record := record + payload;
      file := file + record;
      return true;
    }

    method Reset()
      modifies this
      ensures file == []
    {
      file := [];
    }

    /** Discards everything after the valid prefix. */
    method Truncate(valid: nat)
      requires valid <= |file|
      modifies this
      ensures file == old(file)[..valid]
    {
      file := file[..valid];
    }

    /** Replay and repair, as every store does when it opens. */
    method Recover() returns (records: seq<Payload>)
      modifies this
      ensures exists valid: nat :: Replays(old(file), records, valid) && file == old(file)[..valid]
    {
      var truncated, valid;
      records, truncated, valid := Replay(file);
      if truncated {
        Truncate(valid);
      }
      assert Replays(old(file), records, valid) && file == old(file)[..valid];
    }
  }
}
