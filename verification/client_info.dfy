/**
  The server's record of one connected client (ServerClientInfo): the
  outgoing 16-bit packet sequence counter, a 100-slot history of sent
  packets kept for retransmission, a 100-slot history of received sequence
  numbers with their arrival times for duplicate detection, and the
  lobby/room flags. Wall-clock time is a parameter, packets are abstract.
 */
module ClientInfo {
  import opened Wrappers

  /** Java's `short`. */
  type Short = x: int | -32768 <= x <= 32767

  /** The value a Java `short` holds after an `int` result is narrowed to it. */
  function Wrap16(v: int): (r: Short)
    ensures (r - v) % 65536 == 0
  {
    (v + 32768) % 65536 - 32768
  }

  /** Number of slots in each history ring (indices 0 to 99). */
  const HistorySize: int := 100

  /** How long, in milliseconds, a received sequence number counts as a duplicate. */
  const DuplicateWindow: int := 25000

  /** A sent packet's contents, kept abstract. */
  datatype Packet = Packet(data: seq<int>, length: int)

  /** PacketHistoryEntry: a sent packet with its sequence number. */
  datatype SentEntry = SentEntry(sequence: Short, packet: Packet)

  /** A received sequence number with the time it was last seen, in milliseconds. */
  datatype SeenEntry = SeenEntry(sequence: Short, time: int)

  /** The client's room as far as this record needs it: absent, or present and possibly in a game. */
  datatype RoomRef = NoRoom | InRoom(inGame: bool)

  datatype Client = Client(
    name: string,
    inLobby: bool, inRoom: bool, readyToPlay: bool,
    room: RoomRef,
    nextPacketSequence: Short,
    nextPacketIndex: int, packets: seq<Option<SentEntry>>,
    nextSequenceIndex: int, seen: seq<Option<SeenEntry>>)

  /** Both rings have 100 slots and both next-slot indices lie in [0, 100]. */
  ghost predicate Valid(ci: Client) {
    && |ci.packets| == HistorySize && 0 <= ci.nextPacketIndex <= HistorySize
    && |ci.seen| == HistorySize && 0 <= ci.nextSequenceIndex <= HistorySize
  }

  /**
    The constructor: in the lobby, not in a room, counter and indices at 0,
    and both rings filled with 100 empty slots.
   */
  function NewClient(name: string): (r: Client)
    ensures Valid(r)
    ensures r.inLobby && !r.inRoom && r.nextPacketSequence == 0
    ensures forall k :: 0 <= k < |r.packets| ==> r.packets[k].None?
    ensures forall k :: 0 <= k < |r.seen| ==> r.seen[k].None?
  {
    Client(name, true, false, false, NoRoom, 0,
           0, seq(HistorySize, _ => None), 0, seq(HistorySize, _ => None))
  }

  // ---------------------------------------------------------------- sequence counter

  /**
    getNextPacketSequenceAndIncrement: the current sequence number is
    returned and the counter moves on by one, from 32767 to -32768.
   */
  function NextPacketSequence(ci: Client): (r: (Short, Client))
    ensures r.0 == ci.nextPacketSequence
    ensures r.1 == ci.(nextPacketSequence := r.1.nextPacketSequence)
    ensures r.1.nextPacketSequence == if ci.nextPacketSequence == 32767 then -32768 else ci.nextPacketSequence + 1
  {
    (ci.nextPacketSequence, ci.(nextPacketSequence := Wrap16(ci.nextPacketSequence + 1)))
  }

  /** The sequence numbers handed out by `n` calls in a row, and the record afterwards. */
  function TakeSequences(ci: Client, n: nat): (r: (Client, seq<Short>))
    ensures |r.1| == n
    decreases n
  {
    if n == 0 then (ci, [])
    else
      var (s, ci') := NextPacketSequence(ci);
      var (last, rest) := TakeSequences(ci', n - 1);
      (last, [s] + rest)
  }

  /** The k-th of n consecutive calls returns the starting value plus k, wrapped to 16 bits. */
  lemma {:induction false} TakeSequencesCount(ci: Client, n: nat)
    ensures |TakeSequences(ci, n).1| == n
    ensures forall k :: 0 <= k < n ==> TakeSequences(ci, n).1[k] == Wrap16(ci.nextPacketSequence + k)
    ensures TakeSequences(ci, n).0.nextPacketSequence == Wrap16(ci.nextPacketSequence + n)
    decreases n
  {
    if n > 0 {
      var ci' := NextPacketSequence(ci).1;
      TakeSequencesCount(ci', n - 1);
      forall k | 0 <= k < n
        ensures TakeSequences(ci, n).1[k] == Wrap16(ci.nextPacketSequence + k)
      {
        if k > 0 {
          WrapShift(ci.nextPacketSequence, k);
        }
      }
      WrapShift(ci.nextPacketSequence, n);
    }
  }

  lemma WrapShift(v: Short, k: int)
    ensures Wrap16(Wrap16(v + 1) + (k - 1)) == Wrap16(v + k)
  {
  }

  /** No sequence number is handed out twice within 65536 consecutive calls. */
  lemma SequencesDistinct(ci: Client, n: nat)
    requires n <= 65536
    ensures forall j, k :: 0 <= j < k < n ==> TakeSequences(ci, n).1[j] != TakeSequences(ci, n).1[k]
  {
    TakeSequencesCount(ci, n);
    var s := TakeSequences(ci, n).1;
    forall j, k | 0 <= j < k < n
      ensures s[j] != s[k]
    {
      WrapInjective(ci.nextPacketSequence + j, ci.nextPacketSequence + k);
    }
  }

  lemma WrapInjective(a: int, b: int)
    requires a < b < a + 65536
    ensures Wrap16(a) != Wrap16(b)
  {
  }

  // ---------------------------------------------------------------- sent-packet ring

  /** The slot an insertion uses: the next index, wrapped to 0 once it is past 99. */
  function Slot(index: int): int {
    if index > HistorySize - 1 then 0 else index
  }

  /**
    insertPacket: the packet and its sequence number go into the next slot
    (index 0 again once all 100 are used), the index moves past it, and no
    other slot changes.
   */
  function InsertPacket(ci: Client, sequence: Short, packet: Packet): (r: Client)
    requires Valid(ci)
    ensures Valid(r)
    ensures r.nextPacketIndex == ci.nextPacketIndex % 100 + 1
    ensures r.packets == ci.packets[ci.nextPacketIndex % 100 := Some(SentEntry(sequence, packet))]
    ensures r == ci.(packets := r.packets, nextPacketIndex := r.nextPacketIndex)
  {
    var slot := Slot(ci.nextPacketIndex);
    ci.(packets := ci.packets[slot := Some(SentEntry(sequence, packet))], nextPacketIndex := slot + 1)
  }

  /** Several insertPacket calls in a row. */
  function InsertAll(ci: Client, entries: seq<SentEntry>): (r: Client)
    requires Valid(ci)
    ensures Valid(r)
    decreases |entries|
  {
    if |entries| == 0 then ci
    else InsertAll(InsertPacket(ci, entries[0].sequence, entries[0].packet), entries[1..])
  }

  /**
    The ring keeps the last 100 packets: with `start` the slot the first
    insertion uses, up to 100 insertions put the k-th packet in slot
    (start + k) mod 100 and leave every slot they do not reach as it was.
   */
  lemma InsertAllKeepsRecent(ci: Client, entries: seq<SentEntry>)
    requires Valid(ci) && |entries| <= HistorySize
    ensures forall k :: 0 <= k < |entries| ==>
              InsertAll(ci, entries).packets[(ci.nextPacketIndex % 100 + k) % 100] == Some(entries[k])
    ensures forall j :: 0 <= j < HistorySize && (j - ci.nextPacketIndex % 100) % 100 >= |entries| ==>
              InsertAll(ci, entries).packets[j] == ci.packets[j]
  {
    var r := InsertAll(ci, entries);
    KeptOf(ci, entries, r);
    WrittenOf(ci, entries, r);
  }

  /** Slots the run does not reach keep their packets. */
  lemma {:induction false} KeptOf(ci: Client, entries: seq<SentEntry>, r: Client)
    requires Valid(ci) && |entries| <= HistorySize && Valid(r)
    requires r == InsertAll(ci, entries)
    ensures forall j :: 0 <= j < HistorySize && (j - ci.nextPacketIndex % 100) % 100 >= |entries| ==>
              r.packets[j] == ci.packets[j]
    decreases |entries|
  {
    if |entries| > 0 {
      var ci1 := InsertPacket(ci, entries[0].sequence, entries[0].packet);
      InsertAllUnfold(ci, entries);
      KeptOf(ci1, entries[1..], r);
      RecentKept(ci.nextPacketIndex, ci1.nextPacketIndex, entries, ci.packets, ci1.packets, r.packets);
    }
  }

  /** The k-th packet of the run sits k slots round the ring from the first slot used. */
  lemma {:induction false} WrittenOf(ci: Client, entries: seq<SentEntry>, r: Client)
    requires Valid(ci) && |entries| <= HistorySize && Valid(r)
    requires r == InsertAll(ci, entries)
    ensures forall k :: 0 <= k < |entries| ==> r.packets[(ci.nextPacketIndex % 100 + k) % 100] == Some(entries[k])
    decreases |entries|
  {
    if |entries| > 0 {
      var ci1 := InsertPacket(ci, entries[0].sequence, entries[0].packet);
      InsertAllUnfold(ci, entries);
      WrittenOf(ci1, entries[1..], r);
      FirstStays(ci, entries, r);
      RecentWritten(ci.nextPacketIndex, ci1.nextPacketIndex, entries, r.packets);
    }
  }

  /** The first packet of a run of at most 100 is not overwritten by the rest of it. */
  lemma FirstStays(ci: Client, entries: seq<SentEntry>, r: Client)
    requires Valid(ci) && 0 < |entries| <= HistorySize && Valid(r)
    requires r == InsertAll(ci, entries)
    ensures r.packets[ci.nextPacketIndex % 100] == Some(entries[0])
  {
    var ci1 := InsertPacket(ci, entries[0].sequence, entries[0].packet);
    InsertAllUnfold(ci, entries);
    KeptOf(ci1, entries[1..], r);
    RingBack(ci.nextPacketIndex % 100, ci.nextPacketIndex % 100);
  }

  lemma InsertAllUnfold(ci: Client, entries: seq<SentEntry>)
    requires Valid(ci) && |entries| > 0
    ensures InsertAll(ci, entries) == InsertAll(InsertPacket(ci, entries[0].sequence, entries[0].packet), entries[1..])
  {
  }

  /**
    The written half of one insertion in front of a run: with the first
    packet still at the start slot, the k-th packet sits k slots further on,
    where the rest of the run put it.
   */
  lemma RecentWritten(n0: int, n1: int, entries: seq<SentEntry>, p: seq<Option<SentEntry>>)
    requires 0 <= n0 && n1 == n0 % 100 + 1 && 0 < |entries| <= HistorySize
    requires |p| == HistorySize && p[n0 % 100] == Some(entries[0])
    requires forall k :: 0 <= k < |entries[1..]| ==> p[(n1 % 100 + k) % 100] == Some(entries[1..][k])
    ensures forall k :: 0 <= k < |entries| ==> p[(n0 % 100 + k) % 100] == Some(entries[k])
  {
    var start := n0 % 100;
    forall k | 0 <= k < |entries|
      ensures p[(start + k) % 100] == Some(entries[k])
    {
      if k > 0 {
        assert entries[k] == entries[1..][k - 1];
        RingStep(start, k);
      }
    }
  }

  /** The untouched half: a slot neither the first insertion nor the rest of the run reaches keeps its packet. */
  lemma RecentKept(n0: int, n1: int, entries: seq<SentEntry>, p0: seq<Option<SentEntry>>,
                   p1: seq<Option<SentEntry>>, p: seq<Option<SentEntry>>)
    requires 0 <= n0 && n1 == n0 % 100 + 1 && 0 < |entries| <= HistorySize
    requires |p0| == |p1| == HistorySize == |p| && p1 == p0[n0 % 100 := Some(entries[0])]
    requires forall j :: 0 <= j < HistorySize && (j - n1 % 100) % 100 >= |entries[1..]| ==> p[j] == p1[j]
    ensures forall j :: 0 <= j < HistorySize && (j - n0 % 100) % 100 >= |entries| ==> p[j] == p0[j]
  {
    var start := n0 % 100;
    forall j | 0 <= j < HistorySize && (j - start) % 100 >= |entries|
      ensures p[j] == p0[j]
    {
      RingBack(start, j);
    }
  }

  /** After one or more insertions the index points just past the slot of the last one. */
  lemma {:induction false} InsertAllIndex(ci: Client, entries: seq<SentEntry>)
    requires Valid(ci) && |entries| > 0
    ensures InsertAll(ci, entries).nextPacketIndex == (ci.nextPacketIndex % 100 + |entries| - 1) % 100 + 1
    decreases |entries|
  {
    var start := ci.nextPacketIndex % 100;
    var ci1 := InsertPacket(ci, entries[0].sequence, entries[0].packet);
    assert InsertAll(ci, entries) == InsertAll(ci1, entries[1..]);
    if |entries| > 1 {
      InsertAllIndex(ci1, entries[1..]);
      RingStep(start, |entries| - 1);
    }
  }

  /** One step further round the ring from the slot after `start` is one step further from `start`. */
  lemma RingStep(start: int, k: int)
    requires 0 <= start < HistorySize
    ensures ((start + 1) % 100 + (k - 1)) % 100 == (start + k) % 100
  {
  }

  /** A slot's distance round the ring from the slot after `start` is one less, except for `start` itself. */
  lemma RingBack(start: int, j: int)
    requires 0 <= start < HistorySize && 0 <= j < HistorySize
    ensures j != start ==> (j - (start + 1) % 100) % 100 == (j - start) % 100 - 1
    ensures (start - (start + 1) % 100) % 100 == HistorySize - 1
  {
  }

  // ---------------------------------------------------------------- received-sequence ring

  /** The index of the first recorded entry for `sequence`, or |seen| when there is none. */
  function FindSeen(seen: seq<Option<SeenEntry>>, sequence: Short): (k: nat)
    ensures k <= |seen|
    ensures k < |seen| ==> seen[k].Some? && seen[k].value.sequence == sequence
    ensures forall j :: 0 <= j < k ==> !(seen[j].Some? && seen[j].value.sequence == sequence)
  {
    if |seen| == 0 then 0
    else if seen[0].Some? && seen[0].value.sequence == sequence then 0
    else 1 + FindSeen(seen[1..], sequence)
  }

  /**
    isSequenceDuplicate at time `now`. If the first entry for the sequence
    is younger than 25000 ms, the packet is a duplicate and nothing changes.
    If it is older, its time is refreshed in place and the packet is not a
    duplicate. An unseen sequence is written, with `now`, to the next slot
    (index 0 again once all 100 are used) and is not a duplicate.
   */
  function IsSequenceDuplicate(ci: Client, sequence: Short, now: int): (r: (bool, Client))
    requires Valid(ci)
    ensures Valid(r.1)
    ensures r.0 <==> FindSeen(ci.seen, sequence) < |ci.seen| && now - ci.seen[FindSeen(ci.seen, sequence)].value.time < DuplicateWindow
    ensures r.0 ==> r.1 == ci
    ensures !r.0 && FindSeen(ci.seen, sequence) < |ci.seen| ==>
              r.1 == ci.(seen := ci.seen[FindSeen(ci.seen, sequence) := Some(SeenEntry(sequence, now))])
    ensures FindSeen(ci.seen, sequence) == |ci.seen| ==>
              && r.1 == ci.(seen := r.1.seen, nextSequenceIndex := ci.nextSequenceIndex % 100 + 1)
              && r.1.seen == ci.seen[ci.nextSequenceIndex % 100 := Some(SeenEntry(sequence, now))]
  {
    var k := FindSeen(ci.seen, sequence);
    if k < |ci.seen| then
      if now - ci.seen[k].value.time < DuplicateWindow then (true, ci)
      else (false, ci.(seen := ci.seen[k := Some(SeenEntry(sequence, now))]))
    else
      var slot := Slot(ci.nextSequenceIndex);
      (false, ci.(seen := ci.seen[slot := Some(SeenEntry(sequence, now))], nextSequenceIndex := slot + 1))
  }

  /**
    A packet accepted as new at time `now` makes a repeat of its sequence
    number a duplicate for the next 25000 ms.
   */
  lemma RepeatIsDuplicate(ci: Client, sequence: Short, now: int, later: int)
    requires Valid(ci) && !IsSequenceDuplicate(ci, sequence, now).0
    requires now <= later < now + DuplicateWindow
    ensures IsSequenceDuplicate(IsSequenceDuplicate(ci, sequence, now).1, sequence, later).0
  {
    var ci' := IsSequenceDuplicate(ci, sequence, now).1;
    var k := FindSeen(ci.seen, sequence);
    var slot := if k < |ci.seen| then k else ci.nextSequenceIndex % 100;
    assert ci'.seen == ci.seen[slot := Some(SeenEntry(sequence, now))];
    assert forall j :: 0 <= j < slot ==> !(ci'.seen[j].Some? && ci'.seen[j].value.sequence == sequence);
    FindSeenFirst(ci'.seen, sequence, slot);
  }

  lemma {:induction false} FindSeenFirst(seen: seq<Option<SeenEntry>>, sequence: Short, k: nat)
    requires k < |seen| && seen[k].Some? && seen[k].value.sequence == sequence
    requires forall j :: 0 <= j < k ==> !(seen[j].Some? && seen[j].value.sequence == sequence)
    ensures FindSeen(seen, sequence) == k
  {
    var f := FindSeen(seen, sequence);
    if f < k {
      assert seen[f].Some? && seen[f].value.sequence == sequence;
    }
  }

  // ---------------------------------------------------------------- lobby and room

  function SetInLobby(ci: Client, inLobby: bool): (r: Client)
    ensures r.inLobby == inLobby && r.inRoom == !inLobby
    ensures r == ci.(inLobby := r.inLobby, inRoom := r.inRoom)
  {
    ci.(inLobby := inLobby, inRoom := !inLobby)
  }

  function SetInRoom(ci: Client, inRoom: bool): (r: Client)
    ensures r.inRoom == inRoom && r.inLobby == !inRoom
    ensures r == ci.(inLobby := r.inLobby, inRoom := r.inRoom)
  {
    ci.(inRoom := inRoom, inLobby := !inRoom)
  }

  /** A call of setInLobby or setInRoom. */
  datatype PlaceCall = LobbyCall(inLobby: bool) | RoomCall(inRoom: bool)

  function Replay(ci: Client, calls: seq<PlaceCall>): Client
    decreases |calls|
  {
    if |calls| == 0 then ci
    else
      var ci' := match calls[0]
        case LobbyCall(b) => SetInLobby(ci, b)
        case RoomCall(b) => SetInRoom(ci, b);
      Replay(ci', calls[1..])
  }

  /** Whatever setInLobby/setInRoom calls follow construction, a client is in exactly one of lobby and room. */
  lemma {:induction false} LobbyRoomExclusive(name: string, calls: seq<PlaceCall>)
    ensures Replay(NewClient(name), calls).inLobby == !Replay(NewClient(name), calls).inRoom
  {
    ReplayKeepsExclusive(NewClient(name), calls);
  }

  lemma {:induction false} ReplayKeepsExclusive(ci: Client, calls: seq<PlaceCall>)
    requires ci.inLobby == !ci.inRoom
    ensures Replay(ci, calls).inLobby == !Replay(ci, calls).inRoom
    decreases |calls|
  {
    if |calls| > 0 {
      var ci' := match calls[0]
        case LobbyCall(b) => SetInLobby(ci, b)
        case RoomCall(b) => SetInRoom(ci, b);
      ReplayKeepsExclusive(ci', calls[1..]);
    }
  }

  /** isInGame: never in the lobby or without a room; otherwise whatever the room says. */
  function IsInGame(ci: Client): (r: bool)
    ensures ci.inLobby ==> !r
    ensures ci.room == NoRoom ==> !r
    ensures r <==> !ci.inLobby && ci.room.InRoom? && ci.room.inGame
  {
    if ci.inLobby then false
    else match ci.room
      case NoRoom => false
      case InRoom(g) => g
  }
}
