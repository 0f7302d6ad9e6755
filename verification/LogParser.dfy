/** The packets game servers send their logs in, byte by byte. */
module LogParser {
  import opened Common

  newtype byte = b: int | 0 <= b < 256

  const HEADER: seq<byte> := [255, 255, 255, 255]
  const WITH_PASSWORD: byte := 0x53
  /** The two characters that end the password. */
  const MARK: seq<byte> := [0x4C, 0x20]
  const MIN_LENGTH := 16

  datatype LogMessage = LogMessage(password: seq<byte>, payload: seq<byte>)

  datatype LogError = TooShort | BadHeader | NoPassword | InvalidPassword

  predicate MarkAt(s: seq<byte>, i: nat) {
    i + 2 <= |s| && s[i] == MARK[0] && s[i+1] == MARK[1]
  }

  /** The first position of the mark from `from` on, or |s|. */
  function IndexOfMark(s: seq<byte>, from: nat): (i: nat)
    requires from <= |s|
    ensures from <= i <= |s|
    ensures i < |s| ==> MarkAt(s, i)
    ensures forall j :: from <= j < i ==> !MarkAt(s, j)
    decreases |s| - from
  {
    if from == |s| || MarkAt(s, from) then from else IndexOfMark(s, from + 1)
  }

  /** `slice` of a buffer: bounds past the end, or out of order, give less. */
  function Slice(s: seq<byte>, lo: nat, hi: int): seq<byte> {
    var h := if hi < 0 then 0 else if hi > |s| then |s| else hi;
    if lo <= h then s[lo..h] else []
  }

  function Parse(message: seq<byte>): Result<LogMessage, LogError> {
    if |message| < MIN_LENGTH then Err(TooShort)
    else if message[..4] != HEADER then Err(BadHeader)
    else if message[4] != WITH_PASSWORD then Err(NoPassword)
    else
      var end := IndexOfMark(message, 0);
      if end == |message| then Err(InvalidPassword)
      else Ok(LogMessage(Slice(message, |HEADER| + 1, end), Slice(message, end + |MARK|, |message| - 2)))
  }

  /** A packet as a game server builds it; the last two bytes are a newline and a zero. */
  function Packet(m: LogMessage, trailer: seq<byte>): seq<byte> {
    HEADER + [WITH_PASSWORD] + m.password + MARK + m.payload + trailer
  }

  ghost predicate MarkFree(s: seq<byte>) {
    forall i :: 0 <= i < |s| ==> !MarkAt(s, i)
  }

  lemma PacketMark(m: LogMessage, trailer: seq<byte>)
    requires MarkFree(m.password)
    ensures IndexOfMark(Packet(m, trailer), 0) == 5 + |m.password| < |Packet(m, trailer)|
  {
    var p, n := Packet(m, trailer), |m.password|;
    assert p[5 + n] == MARK[0] && p[5 + n + 1] == MARK[1];
    assert MarkAt(p, 5 + n);
    forall j | 0 <= j < 5 + n ensures !MarkAt(p, j) {
      if j >= 5 {
        assert p[j] == m.password[j - 5];
        assert !MarkAt(m.password, j - 5);
      } else {
        assert p[j] == (HEADER + [WITH_PASSWORD])[j];
      }
    }
  }

  /** What was packed is read back, whatever the payload and the trailer hold. */
  lemma ParsePacket(m: LogMessage, trailer: seq<byte>)
    requires MarkFree(m.password) && |trailer| == 2 && |Packet(m, trailer)| >= MIN_LENGTH
    ensures Parse(Packet(m, trailer)) == Ok(m)
  {
    var p := Packet(m, trailer);
    PacketMark(m, trailer);
    assert p[..4] == HEADER && p[4] == WITH_PASSWORD;
    assert p[5..5 + |m.password|] == m.password;
    assert p[5 + |m.password| + 2..|p| - 2] == m.payload;
  }

  /** Two short trailers, for packets that end within two bytes of the mark. */
  ghost predicate Truncated(message: seq<byte>, m: LogMessage) {
    m.payload == [] && exists trailer :: |trailer| < 2 && message == Packet(m, trailer)
  }

  /**
    Exactly the packets are accepted, and each in only one way: parsing succeeds with `m` if and
    only if the bytes are a packet of `m`, or one cut short right after the mark.
   */
  lemma ParseExactly(message: seq<byte>, m: LogMessage)
    ensures Parse(message) == Ok(m) <==>
            && |message| >= MIN_LENGTH && MarkFree(m.password)
            && ((exists trailer :: |trailer| == 2 && message == Packet(m, trailer)) || Truncated(message, m))
  {
    if Parse(message) == Ok(m) {
      ParsedIsPacket(message, m);
    }
    if |message| >= MIN_LENGTH && MarkFree(m.password) {
      if trailer :| |trailer| == 2 && message == Packet(m, trailer) {
        ParsePacket(m, trailer);
      } else if Truncated(message, m) {
        var trailer :| |trailer| < 2 && message == Packet(m, trailer);
        PacketMark(m, trailer);
        assert message[..4] == HEADER && message[4] == WITH_PASSWORD;
        assert message[5..5 + |m.password|] == m.password;
      }
    }
  }

  ghost predicate StartsWithHeader(message: seq<byte>) {
    |message| >= 4 && forall i :: 0 <= i < 4 ==> message[i] == 255
  }

  /** Every error, in the order of the checks. */
  lemma ErrorsExactly(message: seq<byte>)
    ensures
      var r := Parse(message);
      var long, typed := |message| >= 16, |message| > 4 && message[4] == 0x53;
      && (r == Err(TooShort) <==> !long)
      && (r == Err(BadHeader) <==> long && !StartsWithHeader(message))
      && (r == Err(NoPassword) <==> long && StartsWithHeader(message) && !typed)
      && (r == Err(InvalidPassword) <==> long && StartsWithHeader(message) && typed && MarkFree(message))
  {
    if |message| >= 16 {
      assert message[..4] == HEADER <==> StartsWithHeader(message) by {
        assert forall i :: 0 <= i < 4 ==> message[..4][i] == message[i];
        assert forall i :: 0 <= i < 4 ==> HEADER[i] == 255;
      }
    }
  }

  /** Cutting a message at its parts and putting them together again. */
  lemma Cut(message: seq<byte>, end: nat, stop: nat)
    requires 5 <= end && end + 2 <= stop <= |message|
    requires message[..4] == HEADER && message[4] == WITH_PASSWORD && MarkAt(message, end)
    ensures message == Packet(LogMessage(message[5..end], message[end + 2..stop]), message[stop..])
  {
    assert message[..5] == HEADER + [WITH_PASSWORD];
    assert message[end..end + 2] == MARK;
    assert message == message[..5] + message[5..end] + message[end..end + 2] + message[end + 2..stop] + message[stop..];
  }

  lemma NoMarkBefore(s: seq<byte>, lo: nat, hi: nat)
    requires lo <= hi <= |s| && forall j :: 0 <= j < hi ==> !MarkAt(s, j)
    ensures MarkFree(s[lo..hi])
  {
    forall i | 0 <= i < hi - lo ensures !MarkAt(s[lo..hi], i) {
      assert !MarkAt(s, i + lo);
    }
  }

  lemma HeaderHasNoMark(message: seq<byte>)
    requires |message| > 5 && message[..4] == HEADER && message[4] == WITH_PASSWORD
    ensures forall j :: 0 <= j < 5 ==> !MarkAt(message, j)
  {
    forall j | 0 <= j < 4 ensures message[j] == 255 {
      assert message[j] == message[..4][j];
    }
  }

  /** Where the parts of a parsed message are. */
  lemma ParsedParts(message: seq<byte>, m: LogMessage)
    requires Parse(message) == Ok(m)
    ensures |message| >= MIN_LENGTH && message[..4] == HEADER && message[4] == WITH_PASSWORD
    ensures
      var end := IndexOfMark(message, 0);
      && 5 <= end < |message| && m.password == message[5..end]
      && m.payload == if end + 2 <= |message| - 2 then message[end + 2..|message| - 2] else []
  {
    HeaderHasNoMark(message);
    var end := IndexOfMark(message, 0);
    assert end < |message| ==> MarkAt(message, end);
  }

  lemma ParsedIsPacket(message: seq<byte>, m: LogMessage)
    requires Parse(message) == Ok(m)
    ensures |message| >= MIN_LENGTH && MarkFree(m.password)
    ensures (exists trailer :: |trailer| == 2 && message == Packet(m, trailer)) || Truncated(message, m)
  {
    ParsedParts(message, m);
    var end := IndexOfMark(message, 0);
    NoMarkBefore(message, 5, end);
    if end + 2 <= |message| - 2 {
      Cut(message, end, |message| - 2);
    } else {
      Cut(message, end, end + 2);
    }
  }
}
