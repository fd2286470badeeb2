/** The route blob every WORK frame carries: the coordinator appends one record per hop
    and a final return record; each hop validates the whole blob and picks its entry. */
module RouteBlob {
  import opened Bytes
  import opened Options

  const NI_MAXHOST: nat := 1025
  const RETURN_UPSTREAM: U32 := 1
  const F_OUTPUT_LOGITS: U32 := 1
  const ENTRY_FIXED: nat := 20
  const RETURN_FIXED: nat := 12

  datatype Entry = Entry(host: seq<Byte>, port: U32, start: U32, end: U32, flags: U32)

  predicate HostOk(host: seq<Byte>) { 0 < |host| < NI_MAXHOST && 0 !in host }

  /** A network-order word in front of `rest`, and its removal. */
  function Put(v: U32, rest: seq<Byte>): (b: seq<Byte>)
    ensures |b| == 4 + |rest|
  {
    BigEndian(v) + rest
  }

  function Take(b: seq<Byte>): (r: (U32, seq<Byte>))
    requires |b| >= 4
    ensures |r.1| == |b| - 4
  {
    (FromBigEndian(b[..4]), b[4..])
  }

  lemma TakePut(v: U32, rest: seq<Byte>)
    ensures Take(Put(v, rest)) == (v, rest)
  {
    hide BigEndian, FromBigEndian;
    RoundTrips(v, [0, 0, 0, 0]);
    assert Put(v, rest)[..4] == BigEndian(v);
  }

  lemma SplitWord(b: seq<Byte>)
    requires |b| >= 4
    ensures BigEndian(FromBigEndian(b[..4])) + b[4..] == b
  {
    hide *;
    RoundTrips(0, b[..4]);
    assert b[..4] + b[4..] == b;
  }

  lemma PutTake(b: seq<Byte>)
    requires |b| >= 4
    ensures Put(Take(b).0, Take(b).1) == b
  {
    hide BigEndian, FromBigEndian;
    SplitWord(b);
  }

  lemma PutConcat(v: U32, a: seq<Byte>, b: seq<Byte>)
    ensures Put(v, a + b) == Put(v, a) + b
  {
    hide BigEndian;
  }

  /** Five fixed words, then the host name. */
  function Encode(e: Entry, rest: seq<Byte>): (b: seq<Byte>)
    requires |e.host| <= U32_MAX
    ensures |b| == ENTRY_FIXED + |e.host| + |rest|
  {
    Put(|e.host|, Put(e.port, Put(e.start, Put(e.end, Put(e.flags, e.host + rest)))))
  }

  ghost predicate HostsOk(es: seq<Entry>) { forall i :: 0 <= i < |es| ==> HostOk(es[i].host) }

  /** All that encoding needs: every host length has 32 bits. */
  ghost predicate Encodable(es: seq<Entry>) { forall i :: 0 <= i < |es| ==> |es[i].host| <= U32_MAX }

  function EncodeAll(es: seq<Entry>, rest: seq<Byte>): seq<Byte>
    requires Encodable(es)
  {
    if es == [] then rest else Encode(es[0], EncodeAll(es[1..], rest))
  }

  function EncodeReturn(): (b: seq<Byte>)
    ensures |b| == RETURN_FIXED
  {
    Put(RETURN_UPSTREAM, Put(0, Put(0, [])))
  }

  function Blob(es: seq<Entry>): seq<Byte>
    requires HostsOk(es)
  {
    if es == [] then [] else EncodeAll(es, EncodeReturn())
  }

  function Words5(b: seq<Byte>): (r: (U32, U32, U32, U32, U32, seq<Byte>))
    requires |b| >= ENTRY_FIXED
    ensures |r.5| == |b| - ENTRY_FIXED
  {
    var (v0, b0) := Take(b);
    var (v1, b1) := Take(b0);
    var (v2, b2) := Take(b1);
    var (v3, b3) := Take(b2);
    var (v4, b4) := Take(b3);
    (v0, v1, v2, v3, v4, b4)
  }

  /** What a record is on the wire: host length, port, first and last layer and flags, four
      bytes each with the highest first, and then the host's bytes. */
  lemma RecordLayout(e: Entry, rest: seq<Byte>)
    requires |e.host| <= U32_MAX
    ensures var b := Encode(e, rest);
      && WordAt(b, 0) == |e.host| && WordAt(b, 4) == e.port && WordAt(b, 8) == e.start
      && WordAt(b, 12) == e.end && WordAt(b, 16) == e.flags
      && b[20..] == e.host + rest
  {
    hide BigEndian;
    var b5 := e.host + rest;
    var b4 := Put(e.flags, b5);
    var b3 := Put(e.end, b4);
    var b2 := Put(e.start, b3);
    var b1 := Put(e.port, b2);
    FirstWord(|e.host|, b1);
    FirstWord(e.port, b2);
    FirstWord(e.start, b3);
    FirstWord(e.end, b4);
    FirstWord(e.flags, b5);
    hide Put, WordAt;
    var b := Put(|e.host|, b1);
    WordLater(b, 0, 4);
    WordLater(b, 4, 4);
    WordLater(b, 8, 4);
    WordLater(b, 12, 4);
    assert b[4..] == b1 && b[8..] == b1[4..] == b2 && b[12..] == b2[4..] == b3 && b[16..] == b3[4..] == b4;
    assert b[20..] == b4[4..] == b5;
  }

  ghost function WordAt(b: seq<Byte>, i: nat): nat
    requires i + 4 <= |b|
  {
    16777216 * b[i] as nat + 65536 * b[i + 1] as nat + 256 * b[i + 2] as nat + b[i + 3] as nat
  }

  lemma FirstWord(v: U32, rest: seq<Byte>)
    ensures WordAt(Put(v, rest), 0) == v && Put(v, rest)[4..] == rest
  {
    WordOfBytes(v);
  }

  lemma WordLater(b: seq<Byte>, i: nat, n: nat)
    requires i + n + 4 <= |b|
    ensures WordAt(b, i + n) == WordAt(b[i + n..], 0)
  {
  }

  /** The return record is twelve bytes: kind one, no host, no port. */
  lemma ReturnLayout()
    ensures EncodeReturn() == [0, 0, 0, 1, 0, 0, 0, 0, 0, 0, 0, 0]
  {
  }

  /** Reads one record off the front: a short record or a NUL in the host refuses it. */
  function SkipEntry(b: seq<Byte>): Option<(Entry, seq<Byte>)> {
    if |b| < ENTRY_FIXED then None
    else
      var (hostLen, port, start, end, flags, rest) := Words5(b);
      if hostLen > |rest| || 0 in rest[..hostLen] then None
      else Some((Entry(rest[..hostLen], port, start, end, flags), rest[hostLen..]))
  }

  /** The same, and the host length must be that of a host name. */
  function TakeEntry(b: seq<Byte>): Option<(Entry, seq<Byte>)> {
    var r := SkipEntry(b);
    if r.None? || !HostOk(r.value.0.host) then None else r
  }

  lemma SkipEncoded(e: Entry, rest: seq<Byte>)
    requires |e.host| <= U32_MAX && 0 !in e.host
    ensures SkipEntry(Encode(e, rest)) == Some((e, rest))
  {
    hide Put, Take;
    var b4 := e.host + rest;
    var b3 := Put(e.flags, b4);
    var b2 := Put(e.end, b3);
    var b1 := Put(e.start, b2);
    var b0 := Put(e.port, b1);
    TakePut(|e.host|, b0);
    TakePut(e.port, b1);
    TakePut(e.start, b2);
    TakePut(e.end, b3);
    TakePut(e.flags, b4);
    assert b4[..|e.host|] == e.host && b4[|e.host|..] == rest;
  }

  lemma SkippedIsEncoded(b: seq<Byte>)
    requires SkipEntry(b).Some?
    ensures var (e, rest) := SkipEntry(b).value;
      |e.host| <= U32_MAX && 0 !in e.host && b == Encode(e, rest)
  {
    hide Put, Take;
    var b0 := Take(b).1;
    var b1 := Take(b0).1;
    var b2 := Take(b1).1;
    var b3 := Take(b2).1;
    PutTake(b);
    PutTake(b0);
    PutTake(b1);
    PutTake(b2);
    PutTake(b3);
    var n := Take(b).0;
    var b4 := Take(b3).1;
    assert b4 == b4[..n] + b4[n..];
  }

  lemma TakeEncoded(e: Entry, rest: seq<Byte>)
    requires HostOk(e.host)
    ensures TakeEntry(Encode(e, rest)) == Some((e, rest))
  {
    hide SkipEntry, Encode;
    SkipEncoded(e, rest);
  }

  lemma TakenIsEncoded(b: seq<Byte>)
    requires TakeEntry(b).Some?
    ensures HostOk(TakeEntry(b).value.0.host)
    ensures b == Encode(TakeEntry(b).value.0, TakeEntry(b).value.1)
  {
    hide SkipEntry, Encode;
    SkippedIsEncoded(b);
  }

  lemma {:induction false} EncodeAllSnoc(es: seq<Entry>, e: Entry, rest: seq<Byte>)
    requires Encodable(es) && |e.host| <= U32_MAX
    ensures Encodable(es + [e]) && EncodeAll(es + [e], rest) == EncodeAll(es, Encode(e, rest))
  {
    hide Encode;
    if es == [] {
      assert es + [e] == [e];
    } else {
      assert (es + [e])[1..] == es[1..] + [e];
      EncodeAllSnoc(es[1..], e, rest);
    }
  }

  /** The return record as the hops read it. */
  predicate ReturnOk(b: seq<Byte>) {
    && |b| >= RETURN_FIXED
    && var (kind, b0) := Take(b);
       var (hostLen, b1) := Take(b0);
       var (port, rest) := Take(b1);
       && hostLen < NI_MAXHOST && hostLen <= |rest| && 0 !in rest[..hostLen]
       && kind == RETURN_UPSTREAM && hostLen == 0 && port == 0
       && |rest| - hostLen == 0
  }

  lemma ReturnExactly(b: seq<Byte>)
    ensures ReturnOk(b) <==> b == EncodeReturn()
  {
    hide Put, Take;
    if |b| >= RETURN_FIXED {
      PutTake(b);
      PutTake(Take(b).1);
      PutTake(Take(Take(b).1).1);
    }
    TakePut(0, []);
    TakePut(0, Put(0, []));
    TakePut(RETURN_UPSTREAM, Put(0, Put(0, [])));
  }

  predicate EntryOk(e: Entry, nLayers: nat) {
    && 0 < e.port <= 65535
    && e.start < nLayers && e.end < nLayers && e.start <= e.end
    && e.flags <= F_OUTPUT_LOGITS
    && (e.flags == F_OUTPUT_LOGITS ==> e.end + 1 == nLayers)
  }

  /** A route a hop can accept: well-formed records over contiguous layer ranges. */
  ghost predicate RouteOk(es: seq<Entry>, nLayers: nat) {
    && HostsOk(es)
    && (forall i :: 0 <= i < |es| ==> EntryOk(es[i], nLayers))
    && (forall i :: 0 < i < |es| ==> es[i].start == es[i - 1].end + 1)
  }

  /** What the checks of the records come to: names of 1 to 1024 bytes, nonzero 16-bit
      ports, ranges within the model and one after another, and logits only from the last
      layer. */
  lemma RouteOkMeans(es: seq<Entry>, nLayers: nat)
    ensures RouteOk(es, nLayers) <==> forall i :: 0 <= i < |es| ==>
      && 1 <= |es[i].host| <= 1024 && (forall b <- es[i].host :: b != 0)
      && 1 <= es[i].port <= 65535
      && es[i].start <= es[i].end < nLayers && (i > 0 ==> es[i].start == es[i - 1].end + 1)
      && es[i].flags in {0, 1} && (es[i].flags == 1 ==> es[i].end == nLayers - 1)
  {
    if RouteOk(es, nLayers) {
      forall i | 0 <= i < |es| ensures HostOk(es[i].host) && EntryOk(es[i], nLayers) {}
    }
  }

  ghost predicate Fits(blob: seq<Byte>, count: nat, nLayers: nat, es: seq<Entry>) {
    |es| == count && RouteOk(es, nLayers) && blob == Blob(es)
  }

  /** Where a reader stands after `i` records, if the blob is some route's encoding. */
  ghost predicate At(blob: seq<Byte>, es: seq<Entry>, i: nat, rest: seq<Byte>) {
    HostsOk(es) && i <= |es| && rest == EncodeAll(es[i..], EncodeReturn())
  }

  lemma NextRecord(blob: seq<Byte>, es: seq<Entry>, i: nat, rest: seq<Byte>)
    requires At(blob, es, i, rest) && i < |es|
    ensures TakeEntry(rest) == Some((es[i], EncodeAll(es[i + 1..], EncodeReturn())))
    ensures At(blob, es, i + 1, TakeEntry(rest).value.1)
  {
    hide Encode, TakeEntry;
    assert es[i..][1..] == es[i + 1..];
    TakeEncoded(es[i], EncodeAll(es[i + 1..], EncodeReturn()));
  }

  /** The check every hop runs before it trusts a route: it accepts exactly the
      encodings of well-formed routes with the announced number of entries. */
  method Validate(blob: seq<Byte>, count: nat, nLayers: nat) returns (ok: bool)
    ensures ok <==> exists es :: Fits(blob, count, nLayers, es)
  {
    hide TakeEntry, Encode, EncodeReturn, ReturnOk;
    if count == 0 {
      ok := |blob| == 0;
      assert ok ==> Fits(blob, count, nLayers, []);
      return;
    }
    ghost var es: seq<Entry> := [];
    var rest := blob;
    var prevEnd := U32_MAX;
    for i := 0 to count
      invariant |es| == i && RouteOk(es, nLayers) && blob == EncodeAll(es, rest)
      invariant i > 0 ==> prevEnd == es[i - 1].end
      invariant forall es' :: Fits(blob, count, nLayers, es') ==> es == es'[..i] && At(blob, es', i, rest)
    {
      forall es': seq<Entry> | Fits(blob, count, nLayers, es')
        ensures TakeEntry(rest).Some? && TakeEntry(rest).value.0 == es'[i]
        ensures At(blob, es', i + 1, TakeEntry(rest).value.1)
        ensures EntryOk(es'[i], nLayers) && (i > 0 ==> es'[i].start == prevEnd + 1)
      {
        NextRecord(blob, es', i, rest);
        assert i > 0 ==> es'[i - 1] == es[i - 1];
      }
      var taken := TakeEntry(rest);
      if taken.None? { return false; }
      TakenIsEncoded(rest);
      var (e, rest') := taken.value;
      if !EntryOk(e, nLayers) { return false; }
      if i != 0 && e.start != prevEnd + 1 { return false; }
      EncodeAllSnoc(es, e, rest');
      es, rest, prevEnd := es + [e], rest', e.end;
    }
    ReturnExactly(rest);
    ok := ReturnOk(rest);
    assert ok ==> Fits(blob, count, nLayers, es);
  }

  /** Picks one record; the records before it are only checked for shape. */
  method GetEntry(blob: seq<Byte>, count: nat, target: nat) returns (r: Option<Entry>)
    ensures forall es :: HostsOk(es) && |es| == count && es != [] && blob == Blob(es) ==>
      r == if target < count then Some(es[target]) else None
  {
    hide TakeEntry, Encode, EncodeReturn;
    if target >= count { return None; }
    var rest := blob;
    for i := 0 to count
      invariant i <= target
      invariant forall es :: HostsOk(es) && |es| == count && es != [] && blob == Blob(es) ==> At(blob, es, i, rest)
    {
      forall es | HostsOk(es) && |es| == count && es != [] && blob == Blob(es)
        ensures TakeEntry(rest).Some? && TakeEntry(rest).value.0 == es[i]
        ensures At(blob, es, i + 1, TakeEntry(rest).value.1)
      {
        NextRecord(blob, es, i, rest);
      }
      var taken := TakeEntry(rest);
      if taken.None? { return None; }
      if i == target { return Some(taken.value.0); }
      rest := taken.value.1;
    }
    r := None;
  }

  /** The return record as a reader sees it. */
  datatype Return = Return(kind: U32, host: seq<Byte>, port: U32)

  predicate ReturnShaped(r: Return) { |r.host| < NI_MAXHOST && 0 !in r.host }

  function EncodeReturnAs(r: Return): seq<Byte>
    requires |r.host| <= U32_MAX
  {
    Put(r.kind, Put(|r.host|, Put(r.port, r.host)))
  }

  /** Reads a return record that takes up all the bytes there are. */
  function TakeReturn(b: seq<Byte>): Option<Return> {
    if |b| < RETURN_FIXED then None
    else
      var (kind, b0) := Take(b);
      var (hostLen, b1) := Take(b0);
      var (port, rest) := Take(b1);
      if hostLen >= NI_MAXHOST || hostLen > |rest| || 0 in rest[..hostLen] || |rest| != hostLen then None
      else Some(Return(kind, rest, port))
  }

  lemma TakeReturnExactly(b: seq<Byte>, r: Return)
    ensures TakeReturn(b) == Some(r) <==> ReturnShaped(r) && b == EncodeReturnAs(r)
  {
    hide Put, Take;
    if |b| >= RETURN_FIXED {
      PutTake(b);
      PutTake(Take(b).1);
      PutTake(Take(Take(b).1).1);
      var rest := Take(Take(Take(b).1).1).1;
      assert rest[..|rest|] == rest;
    }
    if ReturnShaped(r) {
      TakePut(r.port, r.host);
      TakePut(|r.host|, Put(r.port, r.host));
      TakePut(r.kind, Put(|r.host|, Put(r.port, r.host)));
      assert r.host[..|r.host|] == r.host;
      ReturnSize(r);
    }
  }

  lemma ReturnSize(r: Return)
    requires |r.host| <= U32_MAX
    ensures |EncodeReturnAs(r)| == RETURN_FIXED + |r.host|
  {
  }

  /** Some records, each with a host of any length, and this return record. */
  ghost predicate Ends(blob: seq<Byte>, count: nat, es: seq<Entry>, r: Return) {
    && |es| == count > 0 && Encodable(es) && (forall e <- es :: 0 !in e.host)
    && ReturnShaped(r) && blob == EncodeAll(es, EncodeReturnAs(r))
  }

  /** Skips every record, whatever its host length, and reads the return record. It
      succeeds exactly on the encodings of some records and that return record. */
  method GetReturnTarget(blob: seq<Byte>, count: nat) returns (o: Option<Return>)
    ensures forall es, r :: Ends(blob, count, es, r) ==> o == Some(r)
    ensures o.Some? ==> exists es :: Ends(blob, count, es, o.value)
  {
    hide SkipEntry, Encode, TakeReturn, EncodeReturnAs, ReturnShaped;
    if count == 0 { return None; }
    var rest := blob;
    ghost var seen: seq<Entry> := [];
    forall es, r | Ends(blob, count, es, r) ensures Left(es, r, 0, blob) { LeftAll(blob, count, es, r); }
    for i := 0 to count
      invariant |seen| == i && Encodable(seen) && (forall e <- seen :: 0 !in e.host) && blob == EncodeAll(seen, rest)
      invariant forall es, r :: Ends(blob, count, es, r) ==> Left(es, r, i, rest)
    {
      forall es, r | Ends(blob, count, es, r)
        ensures SkipEntry(rest).Some? && Left(es, r, i + 1, SkipEntry(rest).value.1)
      {
        LeftNext(es, r, i, rest);
      }
      var skipped := SkipEntry(rest);
      if skipped.None? { return None; }
      SkippedIsEncoded(rest);
      EncodeAllSnoc(seen, skipped.value.0, skipped.value.1);
      seen, rest := seen + [skipped.value.0], skipped.value.1;
    }
    forall es, r | Ends(blob, count, es, r) ensures TakeReturn(rest) == Some(r) {
      LeftLast(es, r, rest);
    }
    o := TakeReturn(rest);
    if o.Some? {
      TakeReturnExactly(rest, o.value);
      assert Ends(blob, count, seen, o.value);
    }
  }

  /** What is left to read after `i` records. */
  ghost predicate Left(es: seq<Entry>, r: Return, i: nat, rest: seq<Byte>) {
    && Encodable(es) && (forall e <- es :: 0 !in e.host) && ReturnShaped(r) && |r.host| <= U32_MAX
    && i <= |es| && rest == EncodeAll(es[i..], EncodeReturnAs(r))
  }

  lemma LeftAll(blob: seq<Byte>, count: nat, es: seq<Entry>, r: Return)
    requires Ends(blob, count, es, r)
    ensures Left(es, r, 0, blob)
  {
    assert es[0..] == es;
  }

  lemma LeftNext(es: seq<Entry>, r: Return, i: nat, rest: seq<Byte>)
    requires Left(es, r, i, rest) && i < |es|
    ensures SkipEntry(rest).Some? && Left(es, r, i + 1, SkipEntry(rest).value.1)
  {
    hide SkipEntry, Encode, EncodeReturnAs;
    assert es[i..][1..] == es[i + 1..];
    SkipEncoded(es[i], EncodeAll(es[i + 1..], EncodeReturnAs(r)));
  }

  lemma LeftLast(es: seq<Entry>, r: Return, rest: seq<Byte>)
    requires Left(es, r, |es|, rest)
    ensures TakeReturn(rest) == Some(r)
  {
    hide EncodeReturnAs, TakeReturn;
    TakeReturnExactly(rest, r);
  }

  /** A valid route's blob ends in the upstream return record. */
  lemma BlobEnds(es: seq<Entry>)
    requires HostsOk(es) && es != []
    ensures Ends(Blob(es), |es|, es, Return(RETURN_UPSTREAM, [], 0))
  {
    assert EncodeReturnAs(Return(RETURN_UPSTREAM, [], 0)) == EncodeReturn();
  }

  datatype Built = Built(blob: seq<Byte>) | TooLarge | BadHost

  /** How many bytes a route's records take. */
  function RecordBytes(es: seq<Entry>): nat {
    if es == [] then 0 else RecordBytes(es[..|es| - 1]) + ENTRY_FIXED + |es[|es| - 1].host|
  }

  lemma {:induction false} RecordBytesGrow(es: seq<Entry>, i: nat)
    requires i <= |es|
    ensures RecordBytes(es[..i]) <= RecordBytes(es)
  {
    if i == |es| {
      assert es[..i] == es;
    } else {
      RecordBytesGrow(es[..|es| - 1], i);
      assert es[..|es| - 1][..i] == es[..i];
    }
  }

  lemma EncodeTail(e: Entry, a: seq<Byte>, b: seq<Byte>)
    requires |e.host| < NI_MAXHOST
    ensures Encode(e, a + b) == Encode(e, a) + b
  {
    hide Put;
    assert e.host + (a + b) == e.host + a + b;
    PutConcat(e.flags, e.host + a, b);
    PutConcat(e.end, Put(e.flags, e.host + a), b);
    PutConcat(e.start, Put(e.end, Put(e.flags, e.host + a)), b);
    PutConcat(e.port, Put(e.start, Put(e.end, Put(e.flags, e.host + a))), b);
    PutConcat(|e.host|, Put(e.port, Put(e.start, Put(e.end, Put(e.flags, e.host + a)))), b);
  }

  lemma {:induction false} EncodeAllTail(es: seq<Entry>, rest: seq<Byte>)
    requires HostsOk(es)
    ensures EncodeAll(es, rest) == EncodeAll(es, []) + rest
  {
    hide Encode;
    if es != [] {
      EncodeAllTail(es[1..], rest);
      EncodeTail(es[0], EncodeAll(es[1..], []), rest);
    }
  }

  /** The coordinator's side: append one record after another, then the return record.
      Hosts are C strings, so they hold no NUL. */
  method BuildBlob(es: seq<Entry>) returns (r: Built)
    requires es != [] && forall e <- es :: 0 !in e.host
    ensures r.Built? <==> HostsOk(es) && RecordBytes(es) + RETURN_FIXED <= U32_MAX
    ensures r.Built? ==> r.blob == Blob(es)
  {
    hide Encode, EncodeReturn;
    var blob: seq<Byte> := [];
    for i := 0 to |es|
      invariant HostsOk(es[..i]) && blob == EncodeAll(es[..i], [])
      invariant |blob| == RecordBytes(es[..i]) <= U32_MAX
    {
      var e := es[i];
      assert es[..i + 1][..i] == es[..i] && es[..i + 1] == es[..i] + [e];
      if |e.host| == 0 || |e.host| >= NI_MAXHOST { return BadHost; }
      RecordBytesGrow(es, i + 1);
      var add := ENTRY_FIXED + |e.host|;
      if |blob| > U32_MAX - add { return TooLarge; }
      EncodeAllSnoc(es[..i], e, []);
      EncodeAllTail(es[..i], Encode(e, []));
      blob := blob + Encode(e, []);
    }
    assert es[..|es|] == es;
    if |blob| > U32_MAX - RETURN_FIXED { return TooLarge; }
    EncodeAllTail(es, EncodeReturn());
    r := Built(blob + EncodeReturn());
  }
}
