/**
 The byte streams fed to the two tree digests, with decoders for both.  A byte is a character
 below 256, so that paths are the text of `PathText`.
 */
module TreePreimage {
  import opened Options

  const NUL: char := '\0'

  // --------------------------------------------------------- big-endian integers

  function Pow256(w: nat): nat {
    if w == 0 then 1 else 256 * Pow256(w - 1)
  }

  /** `n.to_bytes(width, "big")`, for `n` that fits. */
  function BigEndian(n: nat, width: nat): (s: string)
    ensures |s| == width
  {
    if width == 0 then "" else BigEndian(n / 256, width - 1) + [(n % 256) as char]
  }

  function Value(s: string): nat {
    if s == "" then 0 else Value(s[..|s| - 1]) * 256 + s[|s| - 1] as int
  }

  lemma {:induction false} ValueOfBigEndian(n: nat, width: nat)
    requires n < Pow256(width)
    ensures Value(BigEndian(n, width)) == n
  {
    if width > 0 {
      ValueOfBigEndian(n / 256, width - 1);
      assert BigEndian(n, width)[..width - 1] == BigEndian(n / 256, width - 1);
    }
  }

  function Length4(n: nat): (s: string)
    ensures |s| == 4
  {
    BigEndian(n, 4)
  }

  function Length8(n: nat): (s: string)
    ensures |s| == 8
  {
    BigEndian(n, 8)
  }

  lemma ValueOfLength(n: nat)
    ensures n < 0x1_0000_0000 ==> Value(Length4(n)) == n
    ensures n < 0x1_0000_0000_0000_0000 ==> Value(Length8(n)) == n
  {
    Widths();
    if n < Pow256(4) { ValueOfBigEndian(n, 4); }
    if n < Pow256(8) { ValueOfBigEndian(n, 8); }
    hide BigEndian;
    hide Value;
  }

  lemma Widths()
    ensures Pow256(4) == 0x1_0000_0000 && Pow256(8) == 0x1_0000_0000_0000_0000
  {
    assert Pow256(2) == 65_536;
    assert Pow256(4) == 256 * (256 * Pow256(2));
    assert Pow256(6) == 256 * (256 * Pow256(4));
    assert Pow256(8) == 256 * (256 * Pow256(6));
  }

  // ------------------------------------------ length-prefixed path, size and digest

  type Digest = d: string | |d| == 32 witness seq(32, _ => NUL)

  datatype Record = Record(path: string, size: nat, digest: Digest)

  predicate Encodable(r: Record) {
    |r.path| < 0x1_0000_0000 && r.size < 0x1_0000_0000_0000_0000
  }

  predicate AllEncodable(records: seq<Record>) {
    forall k | 0 <= k < |records| :: Encodable(records[k])
  }

  function EncodeRecord(r: Record): string {
    Length4(|r.path|) + (r.path + (Length8(r.size) + r.digest))
  }

  function Encode(records: seq<Record>): string {
    if records == [] then "" else EncodeRecord(records[0]) + Encode(records[1..])
  }

  function DecodeRecord(s: string): Option<(Record, string)> {
    if |s| < 4 then None
    else
      var n, rest := Value(s[..4]), s[4..];
      if |rest| < n + 40 then None
      else Some((Record(rest[..n], Value(rest[n..n + 8]), rest[n + 8..n + 40]), rest[n + 40..]))
  }

  function Decode(s: string): Option<seq<Record>>
    decreases |s|
  {
    if s == "" then Some([])
    else
      match DecodeRecord(s)
      case None => None
      case Some((r, rest)) =>
        match Decode(rest)
        case None => None
        case Some(records) => Some([r] + records)
  }

  lemma RecordRoundTrip(r: Record, rest: string)
    requires Encodable(r)
    ensures DecodeRecord(EncodeRecord(r) + rest) == Some((r, rest))
  {
    var s, n := EncodeRecord(r) + rest, |r.path|;
    ValueOfLength(n);
    ValueOfLength(r.size);
    hide Length4;
    hide Length8;
    hide Value;
    var size := Length8(r.size);
    var body := r.path + (size + r.digest) + rest;
    assert s[..4] == Length4(n) && s[4..] == body;
    assert body[..n] == r.path && body[n..n + 8] == size && body[n + 8..n + 40] == r.digest && body[n + 40..] == rest;
  }

  /** The stream determines the list of records. */
  lemma {:induction false} DecodeEncode(records: seq<Record>)
    requires AllEncodable(records)
    ensures Decode(Encode(records)) == Some(records)
  {
    if records != [] {
      var r, rest := records[0], Encode(records[1..]);
      DecodeEncode(records[1..]);
      RecordRoundTrip(r, rest);
      assert |EncodeRecord(r)| > 0;
      assert [r] + records[1..] == records;
    }
  }

  lemma EqualStreamsEqualRecords(a: seq<Record>, b: seq<Record>)
    requires AllEncodable(a) && AllEncodable(b) && Encode(a) == Encode(b)
    ensures a == b
  {
    DecodeEncode(a);
    DecodeEncode(b);
  }

  // --------------------------------- NUL-terminated path, then length and payload

  datatype Member = Directory(path: string) | File(path: string, payload: string)

  predicate Printable(m: Member) {
    NUL !in m.path && (m.File? ==> |m.payload| < 0x1_0000_0000_0000_0000)
  }

  predicate AllPrintable(members: seq<Member>) {
    forall k | 0 <= k < |members| :: Printable(members[k])
  }

  function Tagged(tag: char, body: string): string {
    [tag, NUL] + body
  }

  lemma TagSplits(tag: char, body: string, rest: string)
    ensures var s := Tagged(tag, body) + rest; |s| >= 2 && s[0] == tag && s[1] == NUL && s[2..] == body + rest
  {
  }

  function PrintMember(m: Member): string {
    match m
    case Directory(path) => Tagged('d', path + [NUL])
    case File(path, payload) => Tagged('f', path + [NUL] + (Length8(|payload|) + payload))
  }

  function Print(members: seq<Member>): string {
    if members == [] then "" else PrintMember(members[0]) + Print(members[1..])
  }

  /** The text before the first NUL and what follows it. */
  function Cut(s: string): Option<(string, string)> {
    if s == "" then None
    else if s[0] == NUL then Some(("", s[1..]))
    else
      match Cut(s[1..])
      case None => None
      case Some((text, rest)) => Some(([s[0]] + text, rest))
  }

  lemma {:induction false} CutShorter(s: string)
    requires Cut(s).Some?
    ensures |Cut(s).value.1| < |s|
  {
    if s[0] != NUL { CutShorter(s[1..]); }
  }

  lemma {:induction false} CutAtNul(text: string, rest: string)
    requires NUL !in text
    ensures Cut(text + [NUL] + rest) == Some((text, rest))
  {
    var s := text + [NUL] + rest;
    if text == "" {
      assert s[1..] == rest;
    } else {
      assert s[0] == text[0] && text[0] in text;
      assert s[1..] == text[1..] + [NUL] + rest;
      CutAtNul(text[1..], rest);
      assert [text[0]] + text[1..] == text;
    }
  }

  function ParseMember(s: string): Option<(Member, string)> {
    if |s| < 2 || s[1] != NUL || (s[0] != 'd' && s[0] != 'f') then None
    else
      match Cut(s[2..])
      case None => None
      case Some((path, rest)) =>
        if s[0] == 'd' then Some((Directory(path), rest)) else ParsePayload(path, rest)
  }

  function ParsePayload(path: string, rest: string): Option<(Member, string)> {
    if |rest| < 8 then None
    else
      var n, tail := Value(rest[..8]), rest[8..];
      if |tail| < n then None else Some((File(path, tail[..n]), tail[n..]))
  }

  lemma ParseShorter(s: string)
    requires ParseMember(s).Some?
    ensures |ParseMember(s).value.1| < |s|
  {
    CutShorter(s[2..]);
  }

  function Parse(s: string): Option<seq<Member>>
    decreases |s|
  {
    if s == "" then Some([])
    else
      match ParseMember(s)
      case None => None
      case Some((m, rest)) =>
        ParseShorter(s);
        match Parse(rest)
        case None => None
        case Some(members) => Some([m] + members)
  }

  lemma DirectoryRoundTrip(path: string, rest: string)
    requires NUL !in path
    ensures ParseMember(PrintMember(Directory(path)) + rest) == Some((Directory(path), rest))
  {
    CutAtNul(path, rest);
    TagSplits('d', path + [NUL], rest);
    hide Tagged;
    hide Cut;
    hide ParsePayload;
  }

  lemma PayloadRoundTrip(path: string, length: string, payload: string, rest: string)
    requires |length| == 8 && Value(length) == |payload|
    ensures ParsePayload(path, length + payload + rest) == Some((File(path, payload), rest))
  {
    hide Value;
    var tail := length + payload + rest;
    assert tail[..8] == length && tail[8..] == payload + rest;
    assert (payload + rest)[..|payload|] == payload && (payload + rest)[|payload|..] == rest;
  }

  lemma FileRoundTrip(path: string, payload: string, rest: string)
    requires Printable(File(path, payload))
    ensures ParseMember(PrintMember(File(path, payload)) + rest) == Some((File(path, payload), rest))
  {
    var tail := Length8(|payload|) + payload + rest;
    CutAtNul(path, tail);
    ValueOfLength(|payload|);
    PayloadRoundTrip(path, Length8(|payload|), payload, rest);
    TagSplits('f', path + [NUL] + (Length8(|payload|) + payload), rest);
    hide Tagged;
    hide Length8;
    hide Value;
    hide Cut;
    hide ParsePayload;
    assert path + [NUL] + (Length8(|payload|) + payload) + rest == path + [NUL] + tail;
  }

  lemma MemberRoundTrip(m: Member, rest: string)
    requires Printable(m)
    ensures ParseMember(PrintMember(m) + rest) == Some((m, rest))
  {
    hide ParseMember;
    hide PrintMember;
    match m {
      case Directory(path) => DirectoryRoundTrip(path, rest);
      case File(path, payload) => FileRoundTrip(path, payload, rest);
    }
  }

  lemma {:induction false} ParsePrint(members: seq<Member>)
    requires AllPrintable(members)
    ensures Parse(Print(members)) == Some(members)
  {
    if members != [] {
      var m, rest := members[0], Print(members[1..]);
      ParsePrint(members[1..]);
      MemberRoundTrip(m, rest);
      assert |PrintMember(m)| > 0 by { hide Length8; }
      assert [m] + members[1..] == members;
    }
  }

  lemma EqualStreamsEqualMembers(a: seq<Member>, b: seq<Member>)
    requires AllPrintable(a) && AllPrintable(b) && Print(a) == Print(b)
    ensures a == b
  {
    ParsePrint(a);
    ParsePrint(b);
  }

  const SOURCE_TREE_DOMAIN := "nplg-pep561-source-tree-v1" + [NUL]

  /** The bytes fed to the source-tree digest, member by member. */
  method FeedMembers(members: seq<Member>) returns (stream: string)
    ensures stream == SOURCE_TREE_DOMAIN + Print(members)
  {
    stream := SOURCE_TREE_DOMAIN;
    var i := 0;
    assert members[0..] == members;
    hide PrintMember;
    while i < |members|
      invariant i <= |members| && stream + Print(members[i..]) == SOURCE_TREE_DOMAIN + Print(members)
    {
      assert members[i..][1..] == members[i + 1..];
      assert stream + (PrintMember(members[i]) + Print(members[i + 1..]))
               == stream + PrintMember(members[i]) + Print(members[i + 1..]);
      stream := stream + PrintMember(members[i]);
      i := i + 1;
    }
    assert members[i..] == [] && stream + "" == stream;
  }
}
