/** The SQL proxy's relay: which chunks it forwards, which it answers with an error packet, and the
    packet itself. */
module SqlProxy {
  import opened Options

  newtype byte = x: int | 0 <= x < 256

  type Chunk = seq<byte>

  function Ascii(s: string): (b: seq<byte>)
    ensures |b| == |s|
  {
    seq(|s|, i requires 0 <= i < |s| => (s[i] as int % 256) as byte)
  }

  // ---------- Classification ----------

  function UpperByte(b: byte): byte
  {
    if 97 <= b <= 122 then b - 32 else b
  }

  /** The dotless i and the long s, two bytes each in UTF-8, are the only letters outside ASCII whose upper
      case is an ASCII letter.  Bytes of all others stay as they are: like what Go's `strings.ToUpper`
      makes of them, they are no ASCII letters, and only these matter to a search for an ASCII word. */
  function Upper(data: seq<byte>): (u: seq<byte>)
    ensures |u| <= |data|
  {
    if data == [] then []
    else if |data| >= 2 && data[0] == 0xC4 && data[1] == 0xB1 then ['I' as byte] + Upper(data[2..])
    else if |data| >= 2 && data[0] == 0xC5 && data[1] == 0xBF then ['S' as byte] + Upper(data[2..])
    else [UpperByte(data[0])] + Upper(data[1..])
  }

  predicate OccursAt(text: seq<byte>, word: seq<byte>, i: nat)
  {
    i + |word| <= |text| && text[i..i + |word|] == word
  }

  predicate Contains(text: seq<byte>, word: seq<byte>)
  {
    exists i :: 0 <= i <= |text| && OccursAt(text, word, i)
  }

  const WRITE_OPS := ["INSERT", "UPDATE", "DELETE", "REPLACE", "CREATE", "ALTER", "DROP", "TRUNCATE", "GRANT", "REVOKE", "LOCK", "UNLOCK"]
  const MIGRATION_OPS := ["CREATE TABLE", "ALTER TABLE", "DROP TABLE", "CREATE INDEX", "DROP INDEX", "RENAME TABLE"]

  /** Whether the payload behind the 4-byte header contains one of the words, in any letter case. */
  predicate Mentions(data: Chunk, words: seq<string>)
  {
    |data| >= 5 && exists op :: op in words && Contains(Upper(data[4..]), Ascii(op))
  }

  datatype State = Normal | Migrating
  datatype Direction = ClientToTarget | TargetToClient

  predicate Blocked(data: Chunk, mode: State, direction: Direction)
  {
    mode == Migrating && direction == ClientToTarget && Mentions(data, WRITE_OPS) && !Mentions(data, MIGRATION_OPS)
  }

  // ---------- The error packet ----------

  const READ_ONLY := "ERROR 1290 (HY000): Database is in read-only mode for migration"

  /** A packet of the MySQL Client/Server Protocol: 3-byte little-endian length, sequence number, payload. */
  function ParsePacket(p: seq<byte>): Option<(byte, seq<byte>)>
  {
    if |p| < 4 then None
    else
      var length := p[0] as int + 0x100 * p[1] as int + 0x1_0000 * p[2] as int;
      if length != |p| - 4 then None else Some((p[3], p[4..]))
  }

  datatype Err = Err(code: int, sqlState: seq<byte>, message: seq<byte>)

  /** The payload of an ERR_Packet. */
  function ParseErr(payload: seq<byte>): Option<Err>
  {
    if |payload| < 9 || payload[0] != 0xFF || payload[3] != '#' as byte then None
    else Some(Err(payload[1] as int + 0x100 * payload[2] as int, payload[4..9], payload[9..]))
  }

  /** The packet is well formed exactly when its payload fits the 3-byte length, and then carries error
      1290, SQL state HY000 and the message. */
  method CreateMySQLError(message: seq<byte>) returns (result: seq<byte>)
    ensures |result| == |message| + 13
    ensures ParsePacket(result).Some? <==> |message| + 9 < 0x100_0000
    ensures ParsePacket(result).Some? ==>
              ParsePacket(result).value.0 == 1 && ParseErr(ParsePacket(result).value.1) == Some(Err(1290, Ascii("HY000"), message))
    ensures result == ErrorPacket(message)
  {
    var packet := [];
    packet := packet + [0xFF];
    packet := packet + [0x0A, 0x05];
    packet := packet + ['#' as byte];
    packet := packet + Ascii("HY000");
    packet := packet + message;
    var length := |packet|;
    result := [];
    result := result + [(length % 0x100) as byte, (length / 0x100 % 0x100) as byte, (length / 0x1_0000 % 0x100) as byte];
    result := result + [1];
    result := result + packet;
    LengthBytes(length);
    assert packet[4..9] == Ascii("HY000") && packet[9..] == message;
    assert result[4..] == packet;
  }

  lemma ShiftTwice(x: nat)
    ensures x / 0x1_0000 == x / 0x100 / 0x100
  {
  }

  lemma SplitByte(x: nat)
    ensures x == x % 0x100 + 0x100 * (x / 0x100)
  {
  }

  lemma LengthBytes(length: nat)
    ensures var l := length % 0x100 + 0x100 * (length / 0x100 % 0x100) + 0x1_0000 * (length / 0x1_0000 % 0x100);
            l == length <==> length < 0x100_0000
  {
    ShiftTwice(length);
    SplitByte(length);
    SplitByte(length / 0x100);
    SplitByte(length / 0x100 / 0x100);
    var top := length / 0x100 / 0x100 / 0x100;
    assert length == length % 0x100 + 0x100 * (length / 0x100 % 0x100) + 0x1_0000 * (length / 0x1_0000 % 0x100) + 0x100_0000 * top;
  }

  function ErrorPacket(message: seq<byte>): seq<byte>
  {
    var length := 9 + |message|;
    [(length % 0x100) as byte, (length / 0x100 % 0x100) as byte, (length / 0x1_0000 % 0x100) as byte, 1, 0xFF, 0x0A, 0x05, '#' as byte]
      + Ascii("HY000") + message
  }

  function ReadOnlyPacket(): seq<byte>
  {
    ErrorPacket(Ascii(READ_ONLY))
  }

  method ReadOnlyError() returns (packet: seq<byte>)
    ensures packet == ReadOnlyPacket()
    ensures ParsePacket(packet).Some?
  {
    packet := CreateMySQLError(Ascii(READ_ONLY));
  }

  // ---------- What a relay forwards ----------

  /** The chunks that pass, in order; modes[i] is the mode found when the i-th chunk was inspected. */
  function Passed(chunks: seq<Chunk>, modes: seq<State>, direction: Direction): seq<Chunk>
    requires |chunks| == |modes|
  {
    if chunks == [] then []
    else
      var last := |chunks| - 1;
      Passed(chunks[..last], modes[..last], direction) +
        if Blocked(chunks[last], modes[last], direction) then [] else [chunks[last]]
  }

  lemma OneMoreChunk(chunks: seq<Chunk>, modes: seq<State>, direction: Direction, i: nat)
    requires i < |chunks| == |modes|
    ensures Passed(chunks[..i + 1], modes[..i + 1], direction) ==
              Passed(chunks[..i], modes[..i], direction) + if Blocked(chunks[i], modes[i], direction) then [] else [chunks[i]]
    ensures Replies(chunks[..i + 1], modes[..i + 1], direction) ==
              Replies(chunks[..i], modes[..i], direction) + if Blocked(chunks[i], modes[i], direction) then [ReadOnlyPacket()] else []
  {
    assert chunks[..i + 1][..i] == chunks[..i] && modes[..i + 1][..i] == modes[..i];
  }

  function Concat(chunks: seq<Chunk>): seq<byte>
  {
    if chunks == [] then [] else Concat(chunks[..|chunks| - 1]) + chunks[|chunks| - 1]
  }

  /** The positions of the unblocked chunks, in increasing order. */
  function Positions(chunks: seq<Chunk>, modes: seq<State>, direction: Direction): seq<nat>
    requires |chunks| == |modes|
  {
    if chunks == [] then []
    else
      var last := |chunks| - 1;
      Positions(chunks[..last], modes[..last], direction) +
        if Blocked(chunks[last], modes[last], direction) then [] else [last]
  }

  lemma {:induction false} PositionsExact(chunks: seq<Chunk>, modes: seq<State>, direction: Direction, i: nat)
    requires |chunks| == |modes|
    ensures i in Positions(chunks, modes, direction) <==> i < |chunks| && !Blocked(chunks[i], modes[i], direction)
  {
    if chunks != [] {
      PositionsExact(chunks[..|chunks| - 1], modes[..|chunks| - 1], direction, i);
    }
  }

  lemma {:induction false} PassedInOrder(chunks: seq<Chunk>, modes: seq<State>, direction: Direction, k: nat)
    requires |chunks| == |modes|
    ensures |Passed(chunks, modes, direction)| == |Positions(chunks, modes, direction)| <= |chunks|
    ensures k < |Passed(chunks, modes, direction)| ==>
              var at := Positions(chunks, modes, direction);
              && at[k] < |chunks| && Passed(chunks, modes, direction)[k] == chunks[at[k]]
              && (k + 1 < |at| ==> at[k] < at[k + 1])
  {
    if chunks != [] {
      var last := |chunks| - 1;
      PassedInOrder(chunks[..last], modes[..last], direction, k);
      if k + 1 == |Positions(chunks[..last], modes[..last], direction)| {
        PositionsExact(chunks[..last], modes[..last], direction, Positions(chunks[..last], modes[..last], direction)[k]);
      }
    }
  }

  /** What passes are exactly the unblocked chunks, each once and in the order they were read. */
  lemma PassedExactly(chunks: seq<Chunk>, modes: seq<State>, direction: Direction)
    requires |chunks| == |modes|
    ensures var at, passed := Positions(chunks, modes, direction), Passed(chunks, modes, direction);
            && (forall i: nat :: i in at <==> i < |chunks| && !Blocked(chunks[i], modes[i], direction))
            && |passed| == |at|
            && (forall k :: 0 <= k < |at| ==> at[k] < |chunks| && passed[k] == chunks[at[k]])
            && (forall k, l :: 0 <= k < l < |at| && l == k + 1 ==> at[k] < at[l])
  {
    forall i: nat ensures i in Positions(chunks, modes, direction) <==> i < |chunks| && !Blocked(chunks[i], modes[i], direction) {
      PositionsExact(chunks, modes, direction, i);
    }
    var at, passed := Positions(chunks, modes, direction), Passed(chunks, modes, direction);
    PassedInOrder(chunks, modes, direction, 0);
    forall k | 0 <= k < |at|
      ensures at[k] < |chunks| && passed[k] == chunks[at[k]] && (k + 1 < |at| ==> at[k] < at[k + 1])
    {
      PassedInOrder(chunks, modes, direction, k);
    }
  }

  /** A relay forwards what it reads unchanged when it leads to the client, or while the proxy stays out of
      migration mode. */
  lemma {:induction false} TransparentUnlessMigrating(chunks: seq<Chunk>, modes: seq<State>, direction: Direction)
    requires |chunks| == |modes|
    requires direction == TargetToClient || forall i :: 0 <= i < |modes| ==> modes[i] == Normal
    ensures Passed(chunks, modes, direction) == chunks
    ensures Concat(Passed(chunks, modes, direction)) == Concat(chunks)
  {
    if chunks != [] {
      var last := |chunks| - 1;
      TransparentUnlessMigrating(chunks[..last], modes[..last], direction);
      assert chunks == chunks[..last] + [chunks[last]];
    }
  }

  /** What a relay answers to the side it reads from: one error packet for each blocked chunk. */
  function Replies(chunks: seq<Chunk>, modes: seq<State>, direction: Direction): (r: seq<seq<byte>>)
    requires |chunks| == |modes|
    ensures |r| == |chunks| - |Passed(chunks, modes, direction)|
    ensures forall k :: 0 <= k < |r| ==> r[k] == ReadOnlyPacket()
  {
    if chunks == [] then []
    else
      var last := |chunks| - 1;
      Replies(chunks[..last], modes[..last], direction) +
        if Blocked(chunks[last], modes[last], direction) then [ReadOnlyPacket()] else []
  }

  /** After n chunks, these have been forwarded and answered. */
  ghost predicate Relayed(chunks: seq<Chunk>, modes: seq<State>, direction: Direction, n: nat, forwarded: seq<Chunk>, replies: seq<seq<byte>>)
    requires n <= |chunks| == |modes|
  {
    && forwarded == Passed(chunks[..n], modes[..n], direction)
    && replies == Replies(chunks[..n], modes[..n], direction)
    && |forwarded| + |replies| == n
  }

  /** None of the first n chunks was to be forwarded and could not be written. */
  predicate NoFailure(chunks: seq<Chunk>, modes: seq<State>, writes: seq<bool>, direction: Direction, n: nat)
    requires n <= |chunks| == |modes| == |writes|
  {
    n == 0 || (NoFailure(chunks, modes, writes, direction, n - 1) && (writes[n - 1] || Blocked(chunks[n - 1], modes[n - 1], direction)))
  }

  lemma {:induction false} NoFailureMeans(chunks: seq<Chunk>, modes: seq<State>, writes: seq<bool>, direction: Direction, n: nat)
    requires n <= |chunks| == |modes| == |writes|
    ensures NoFailure(chunks, modes, writes, direction, n) <==> forall i :: 0 <= i < n ==> writes[i] || Blocked(chunks[i], modes[i], direction)
  {
    if n > 0 { NoFailureMeans(chunks, modes, writes, direction, n - 1); }
  }

  lemma RelayedOneMore(chunks: seq<Chunk>, modes: seq<State>, direction: Direction, i: nat, forwarded: seq<Chunk>, replies: seq<seq<byte>>)
    requires i < |chunks| == |modes| && Relayed(chunks, modes, direction, i, forwarded, replies)
    ensures if Blocked(chunks[i], modes[i], direction)
            then Relayed(chunks, modes, direction, i + 1, forwarded, replies + [ReadOnlyPacket()])
            else Relayed(chunks, modes, direction, i + 1, forwarded + [chunks[i]], replies)
  {
    OneMoreChunk(chunks, modes, direction, i);
  }

  // ---------- What the client of a connection receives ----------

  /** Two relays write to the client: one brings the target's chunks, the other its replies.  Their writes may
      alternate in any way. */
  ghost predicate Interleaves(xs: seq<seq<byte>>, ys: seq<seq<byte>>, all: seq<seq<byte>>)
    decreases |all|
  {
    if all == [] then xs == [] && ys == []
    else
      var last, init := all[|all| - 1], all[..|all| - 1];
      || (xs != [] && xs[|xs| - 1] == last && Interleaves(xs[..|xs| - 1], ys, init))
      || (ys != [] && ys[|ys| - 1] == last && Interleaves(xs, ys[..|ys| - 1], init))
  }

  lemma {:induction false} InterleavedLength(xs: seq<seq<byte>>, ys: seq<seq<byte>>, all: seq<seq<byte>>)
    requires Interleaves(xs, ys, all)
    ensures |Concat(all)| == |Concat(xs)| + |Concat(ys)| && |all| == |xs| + |ys|
    decreases |all|
  {
    if all != [] {
      var last, init := all[|all| - 1], all[..|all| - 1];
      if xs != [] && xs[|xs| - 1] == last && Interleaves(xs[..|xs| - 1], ys, init) {
        InterleavedLength(xs[..|xs| - 1], ys, init);
      } else {
        InterleavedLength(xs, ys[..|ys| - 1], init);
      }
    }
  }

  lemma {:induction false} OnlyOneWriter(xs: seq<seq<byte>>, all: seq<seq<byte>>)
    requires Interleaves(xs, [], all)
    ensures all == xs
    decreases |all|
  {
    if all != [] {
      OnlyOneWriter(xs[..|xs| - 1], all[..|all| - 1]);
    }
  }

  lemma {:induction false} CopiesLength(packet: seq<byte>, copies: seq<seq<byte>>)
    requires forall k :: 0 <= k < |copies| ==> copies[k] == packet
    ensures |Concat(copies)| == |packet| * |copies|
  {
    if copies != [] {
      var n := |copies| - 1;
      CopiesLength(packet, copies[..n]);
      assert |packet| * (n + 1) == |packet| * n + |packet|;
    }
  }

  lemma {:induction false} BlockedIsAnswered(chunks: seq<Chunk>, modes: seq<State>, direction: Direction, i: nat)
    requires i < |chunks| == |modes| && Blocked(chunks[i], modes[i], direction)
    ensures Replies(chunks, modes, direction) != []
  {
    var last := |chunks| - 1;
    if i < last { BlockedIsAnswered(chunks[..last], modes[..last], direction, i); }
  }

  lemma {:induction false} AnswersMeanBlocked(chunks: seq<Chunk>, modes: seq<State>, direction: Direction) returns (i: nat)
    requires |chunks| == |modes| && Replies(chunks, modes, direction) != []
    ensures i < |chunks| && Blocked(chunks[i], modes[i], direction)
  {
    i := |chunks| - 1;
    if Replies(chunks[..i], modes[..i], direction) != [] {
      i := AnswersMeanBlocked(chunks[..i], modes[..i], direction);
    }
  }

  /** However the two relays' writes alternate, the client receives the target's bytes and one error packet for
      each of its own blocked chunks.  So it receives just the target's bytes exactly when none was blocked. */
  lemma ClientSeesTargetExactly(chunks: seq<Chunk>, modes: seq<State>, back: seq<Chunk>, arrived: seq<Chunk>)
    requires |chunks| == |modes|
    requires Interleaves(back, Replies(chunks, modes, ClientToTarget), arrived)
    ensures |Concat(arrived)| == |Concat(back)| + |ReadOnlyPacket()| * |Replies(chunks, modes, ClientToTarget)|
    ensures Concat(arrived) == Concat(back) <==> forall i :: 0 <= i < |chunks| ==> !Blocked(chunks[i], modes[i], ClientToTarget)
  {
    var replies := Replies(chunks, modes, ClientToTarget);
    CopiesLength(ReadOnlyPacket(), replies);
    InterleavedLength(back, replies, arrived);
    if replies == [] {
      OnlyOneWriter(back, arrived);
      forall i | 0 <= i < |chunks| ensures !Blocked(chunks[i], modes[i], ClientToTarget) {
        if Blocked(chunks[i], modes[i], ClientToTarget) { BlockedIsAnswered(chunks, modes, ClientToTarget, i); }
      }
    } else {
      PacketsTakeRoom(|replies|);
      var i := AnswersMeanBlocked(chunks, modes, ClientToTarget);
    }
  }

  lemma PacketsTakeRoom(n: nat)
    requires n > 0
    ensures |ReadOnlyPacket()| * n > 0
  {
    assert |ReadOnlyPacket()| > 0;
  }

  /** A byte stream is the concatenation of its chunks in order, however it is cut. */
  lemma {:induction false} ConcatAppends(xs: seq<Chunk>, ys: seq<Chunk>, x: Chunk)
    ensures Concat(xs + ys) == Concat(xs) + Concat(ys)
    ensures Concat([x]) == x
  {
    assert [x][..0] == [];
    assert Concat([]) == [];
    if ys == [] {
      assert xs + ys == xs;
    } else {
      var last := |ys| - 1;
      ConcatAppends(xs, ys[..last], x);
      assert (xs + ys)[..|xs + ys| - 1] == xs + ys[..last];
    }
  }

  /** Either relay may have written first. */
  lemma {:induction false} EitherMayWriteFirst(xs: seq<seq<byte>>, ys: seq<seq<byte>>)
    ensures Interleaves(xs, ys, xs + ys) && Interleaves(xs, ys, ys + xs)
    decreases |xs| + |ys|
  {
    if ys != [] {
      EitherMayWriteFirst(xs, ys[..|ys| - 1]);
      assert (xs + ys)[..|xs + ys| - 1] == xs + ys[..|ys| - 1];
    } else {
      AloneInterleaves(xs);
      assert xs + ys == xs == ys + xs;
    }
    if xs != [] {
      EitherMayWriteFirst(xs[..|xs| - 1], ys);
      assert (ys + xs)[..|ys + xs| - 1] == ys + xs[..|xs| - 1];
    } else {
      assert xs + ys == ys == ys + xs;
    }
  }

  lemma {:induction false} AloneInterleaves(xs: seq<seq<byte>>)
    ensures Interleaves(xs, [], xs)
  {
    if xs != [] { AloneInterleaves(xs[..|xs| - 1]); }
  }

  /** The bytes of the packet the client gets, but for the text. */
  lemma ReadOnlyPacketBytes()
    ensures var text := Ascii("ERROR 1290 (HY000): Database is in read-only mode for migration");
            ReadOnlyPacket() == [72, 0, 0, 1, 0xFF, 0x0A, 0x05, 0x23, 0x48, 0x59, 0x30, 0x30, 0x30] + text && |text| == 63
  {
    assert Ascii("HY000") == [0x48, 0x59, 0x30, 0x30, 0x30];
  }

  datatype Outcome = SourceClosed | WriteFailed

  class Proxy {
    var state: State
    var queriesBlocked: int
    var queriesAllowed: int
    var migrationsStarted: int

    constructor ()
      ensures state == Normal && queriesBlocked == queriesAllowed == migrationsStarted == 0
    {
      state := Normal;
      queriesBlocked, queriesAllowed, migrationsStarted := 0, 0, 0;
    }

    method IsWriteQuery(data: Chunk) returns (r: bool)
      ensures r == Mentions(data, WRITE_OPS)
    {
      r := AnyWord(data, WRITE_OPS);
    }

    method IsMigrationQuery(data: Chunk) returns (r: bool)
      ensures r == Mentions(data, MIGRATION_OPS)
    {
      r := AnyWord(data, MIGRATION_OPS);
    }

    method AnyWord(data: Chunk, words: seq<string>) returns (r: bool)
      ensures r == Mentions(data, words)
    {
      if |data| < 5 {
        return false;
      }
      var payload := Upper(data[4..]);
      for i := 0 to |words|
        invariant forall op :: op in words[..i] ==> !Contains(payload, Ascii(op))
      {
        if Contains(payload, Ascii(words[i])) {
          return true;
        }
      }
      return false;
    }

    method IsBlocked(data: Chunk, mode: State, direction: Direction) returns (r: bool)
      ensures r == Blocked(data, mode, direction)
    {
      if mode == Migrating && direction == ClientToTarget {
        var isWrite := IsWriteQuery(data);
        var isMigration := IsMigrationQuery(data);
        return isWrite && !isMigration;
      }
      return false;
    }

    /** Inspects a chunk; a blocked one is counted and answered. */
    method Inspect(data: Chunk, mode: State, direction: Direction) returns (blocked: bool, errorPacket: seq<byte>)
      modifies this`queriesBlocked
      ensures blocked == Blocked(data, mode, direction)
      ensures blocked ==> errorPacket == ReadOnlyPacket()
      ensures queriesBlocked == old(queriesBlocked) + if blocked then 1 else 0
    {
      errorPacket := [];
      blocked := IsBlocked(data, mode, direction);
      if blocked {
        queriesBlocked := queriesBlocked + 1;
        errorPacket := ReadOnlyError();
      }
    }

    /** Relays what is read from one side to the other.  `modes[i]` is the mode found when the i-th chunk
        was inspected, so migrations may start and end at any point; `writes[i]` tells whether forwarding
        it succeeds.  The relay stops at the first failed write or when the source ends: `read` chunks were
        read, and all but a last one whose write failed were handled. */
    method ProxyWithInspection(chunks: seq<Chunk>, modes: seq<State>, writes: seq<bool>, direction: Direction)
      returns (read: nat, outcome: Outcome, forwarded: seq<Chunk>, replies: seq<seq<byte>>)
      requires |chunks| == |modes| == |writes|
      modifies this`queriesBlocked, this`queriesAllowed
      ensures read <= |chunks|
      ensures outcome == SourceClosed ==> read == |chunks|
      ensures outcome == WriteFailed <==>
                read > 0 && !writes[read - 1] && !Blocked(chunks[read - 1], modes[read - 1], direction)
      ensures NoFailure(chunks, modes, writes, direction, if read > 0 then read - 1 else 0)
      ensures Relayed(chunks, modes, direction, if outcome == WriteFailed && read > 0 then read - 1 else read, forwarded, replies)
      ensures queriesBlocked - old(queriesBlocked) == |replies|
      ensures (queriesBlocked - old(queriesBlocked)) + (queriesAllowed - old(queriesAllowed)) == read
    {
      forwarded, replies, read := [], [], 0;
      while read < |chunks|
        invariant 0 <= read <= |chunks|
        invariant Relayed(chunks, modes, direction, read, forwarded, replies)
        invariant queriesBlocked - old(queriesBlocked) == |replies|
        invariant queriesAllowed - old(queriesAllowed) == |forwarded|
        invariant NoFailure(chunks, modes, writes, direction, read)
      {
        var i := read;
        var data := chunks[i];
        read := read + 1;
        RelayedOneMore(chunks, modes, direction, i, forwarded, replies);
        var blocked, errorPacket := Inspect(data, modes[i], direction);
        if blocked {
          replies := replies + [errorPacket];
          continue;
        }
        queriesAllowed := queriesAllowed + 1;
        if !writes[i] {
          return read, WriteFailed, forwarded, replies;
        }
        forwarded := forwarded + [data];
      }
      outcome := SourceClosed;
    }

    method StartMigration()
      modifies this
      ensures (state, migrationsStarted) == Toggled(old(state), old(migrationsStarted), Start)
      ensures queriesBlocked == old(queriesBlocked) && queriesAllowed == old(queriesAllowed)
    {
      if state == Migrating {
        return;
      }
      state := Migrating;
      migrationsStarted := migrationsStarted + 1;
    }

    method EndMigration()
      modifies this
      ensures (state, migrationsStarted) == Toggled(old(state), old(migrationsStarted), End)
      ensures queriesBlocked == old(queriesBlocked) && queriesAllowed == old(queriesAllowed)
    {
      if state == Normal {
        return;
      }
      state := Normal;
    }
  }

  // ---------- Entering and leaving migration mode ----------

  datatype Toggle = Start | End

  function Toggled(state: State, started: int, t: Toggle): (State, int)
  {
    match t
    case Start => if state == Migrating then (state, started) else (Migrating, started + 1)
    case End => (Normal, started)
  }

  function AllToggled(toggles: seq<Toggle>): (State, int)
  {
    if toggles == [] then (Normal, 0)
    else
      var (state, started) := AllToggled(toggles[..|toggles| - 1]);
      Toggled(state, started, toggles[|toggles| - 1])
  }

  /** A start opens a period unless it directly follows another start. */
  predicate Opens(toggles: seq<Toggle>, i: nat)
  {
    i < |toggles| && toggles[i] == Start && (i == 0 || toggles[i - 1] == End)
  }

  ghost function Openings(toggles: seq<Toggle>): set<nat>
  {
    set i: nat | i < |toggles| && Opens(toggles, i)
  }

  /** However often the mode is switched, repeated switches included, the proxy is migrating exactly when
      the last switch was a start, and counts each period once. */
  lemma {:induction false} PeriodsCounted(toggles: seq<Toggle>)
    ensures AllToggled(toggles).0 == Migrating <==> toggles != [] && toggles[|toggles| - 1] == Start
    ensures AllToggled(toggles).1 == |Openings(toggles)|
  {
    if toggles == [] {
      assert Openings(toggles) == {};
    } else {
      var last := |toggles| - 1;
      PeriodsCounted(toggles[..last]);
      OpeningsOneMore(toggles);
    }
  }

  lemma OpeningsOneMore(toggles: seq<Toggle>)
    requires toggles != []
    ensures var last := |toggles| - 1;
            |Openings(toggles)| == |Openings(toggles[..last])| + if Opens(toggles, last) then 1 else 0
  {
    var last := |toggles| - 1;
    var before := Openings(toggles[..last]);
    assert forall i: nat :: i < last ==> (Opens(toggles[..last], i) <==> Opens(toggles, i));
    if Opens(toggles, last) {
      assert Openings(toggles) == before + {last} && last !in before;
    } else {
      assert Openings(toggles) == before;
    }
  }
}
