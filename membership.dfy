/**
 * The joined-rooms file and the rooms the bot listens to (matrix-b0t.py lines
 * 42-44, 59-65 and 111-117). The file is the text of joined-rooms.txt; joining a
 * room is a call into the Matrix client, so whether it succeeds is a parameter.
 */
module Membership {
  import opened Text

  /** The comprehension of line 44: each line stripped. */
  function StripEach(lines: seq<string>): (stripped: seq<string>)
    ensures |stripped| == |lines|
    ensures forall i :: 0 <= i < |lines| ==> stripped[i] == Strip(lines[i])
  {
    seq(|lines|, i requires 0 <= i < |lines| => Strip(lines[i]))
  }

  /** Line 44: the file read in text mode, one stripped entry per line. */
  function StoredRooms(file: string): (rooms: seq<string>)
    ensures |rooms| == |Lines(Universal(file))|
    ensures rooms == [] <==> file == []
    ensures forall i :: 0 <= i < |rooms| ==> Trimmed(rooms[i])
  {
    UniversalShape(file);
    StripEach(Lines(Universal(file)))
  }

  /** Stripping line by line distributes over concatenation. */
  lemma StripEachAppend(a: seq<string>, b: seq<string>)
    ensures StripEach(a + b) == StripEach(a) + StripEach(b)
  {
    var l, r := StripEach(a + b), StripEach(a) + StripEach(b);
    assert |l| == |r|;
    forall i | 0 <= i < |l| ensures l[i] == r[i] {
      if i < |a| {
        assert (a + b)[i] == a[i];
      } else {
        assert (a + b)[i] == b[i - |a|];
      }
    }
  }

  /** Reading a file that ends in a newline, then more text, reads the two parts in turn. */
  lemma StoredRoomsAppend(file: string, more: string)
    requires file == [] || file[|file| - 1] == '\n'
    ensures StoredRooms(file + more) == StoredRooms(file) + StoredRooms(more)
  {
    var u, v := Universal(file), Universal(more);
    UniversalAppend(file, more);
    UniversalShape(file);
    LinesAppend(u, v);
    StripEachAppend(Lines(u), Lines(v));
  }

  /**
   * Load/append round trip: on a file that is empty or newline-terminated, the
   * line an invite appends for a trimmed room id without line breaks reads back
   * as exactly that id, after the entries already there.
   */
  lemma InviteRoundTrip(file: string, roomId: string)
    requires file == [] || file[|file| - 1] == '\n'
    requires '\n' !in roomId && '\r' !in roomId && Trimmed(roomId)
    ensures StoredRooms(file + roomId + "\n") == StoredRooms(file) + [roomId]
  {
    var line := roomId + "\n";
    assert file + roomId + "\n" == file + line;
    StoredRoomsAppend(file, line);
    StoredRoomsOfLine(roomId);
  }

  /** A file holding one trimmed id and its newline stores exactly that id. */
  lemma StoredRoomsOfLine(roomId: string)
    requires '\n' !in roomId && '\r' !in roomId && Trimmed(roomId)
    ensures StoredRooms(roomId + "\n") == [roomId]
  {
    var line := roomId + "\n";
    assert '\r' !in line;
    UniversalPlain(line);
    LinesOfOneLine(roomId);
    StripLine(roomId);
    var rooms := StoredRooms(line);
    assert |rooms| == 1 && rooms[0] == Strip(line);
  }

  /** There is no duplicate check: two invites to one room store it twice. */
  lemma RepeatedInviteStoredTwice(file: string, roomId: string)
    requires file == [] || file[|file| - 1] == '\n'
    requires '\n' !in roomId && '\r' !in roomId && Trimmed(roomId)
    ensures StoredRooms(file + roomId + "\n" + roomId + "\n") == StoredRooms(file) + [roomId, roomId]
  {
    InviteRoundTrip(file, roomId);
    InviteRoundTrip(file + roomId + "\n", roomId);
  }

  /**
   * On a file whose last line `last` lacks its newline, the appended id is glued
   * to that line: both are read back as one entry, after the entries before it.
   */
  lemma AppendToUnterminatedLineMerges(head: string, last: string, roomId: string)
    requires head == [] || head[|head| - 1] == '\n'
    requires last != [] && '\n' !in last && '\r' !in last
    requires '\n' !in roomId && '\r' !in roomId
    ensures StoredRooms(head + last + roomId + "\n") == StoredRooms(head) + [Strip(last + roomId + "\n")]
  {
    var text := last + roomId + "\n";
    assert head + last + roomId + "\n" == head + text;
    StoredRoomsAppend(head, text);
    MergedLine(last + roomId);
  }

  /** Text holding one line break, at its end, is stored as that one stripped line. */
  lemma MergedLine(line: string)
    requires '\n' !in line && '\r' !in line
    ensures StoredRooms(line + "\n") == [Strip(line + "\n")]
  {
    var text := line + "\n";
    assert '\r' !in text;
    UniversalPlain(text);
    LinesOfOneLine(line);
  }

  /** The index of the first room the client fails to join, or the number of rooms. */
  function FirstUnjoinable(rooms: seq<string>, unjoinable: set<string>): (k: nat)
    ensures k <= |rooms|
    ensures forall i :: 0 <= i < k ==> rooms[i] !in unjoinable
    ensures k < |rooms| ==> rooms[k] in unjoinable
  {
    if rooms == [] || rooms[0] in unjoinable then 0
    else 1 + FirstUnjoinable(rooms[1..], unjoinable)
  }

  /** The running bot: its file, the list it read at start-up, and its listeners. */
  class Bot {
    /** The text of joined-rooms.txt. */
    var file: string
    /** `joined_rooms`: the file's entries as read once at start-up (line 44). */
    var joinedRooms: seq<string>
    /** The rooms given the `on_message` listener (line 114), in the order they got it. */
    var listening: seq<string>

    /** Start-up: the file is read once into `joined_rooms`; nothing listens yet. */
    constructor Load(text: string)
      ensures file == text && joinedRooms == StoredRooms(text) && listening == []
    {
      file := text;
      joinedRooms := StoredRooms(text);
      listening := [];
    }

    /**
     * `on_invite` (lines 59-65): after a successful join the room id and a newline
     * are appended to the file, with no duplicate check. A failed join raises before
     * the write. Neither `joined_rooms` nor the listeners change.
     */
    method OnInvite(roomId: string, joinSucceeds: bool)
      modifies this`file
      ensures file == if joinSucceeds then old(file) + roomId + "\n" else old(file)
      ensures joinedRooms == old(joinedRooms) && listening == old(listening)
    {
      if joinSucceeds {
        file := file + roomId + "\n";
      }
    }

    /**
     * The start-up loop (lines 111-117): each stored room, in order, is joined and
     * given the `on_message` listener; the first room that cannot be joined ends the
     * process. `ok` is false exactly when that happens.
     */
    method ListenToStoredRooms(unjoinable: set<string>) returns (ok: bool)
      modifies this`listening
      ensures listening == old(listening) + joinedRooms[..FirstUnjoinable(joinedRooms, unjoinable)]
      ensures ok <==> forall i :: 0 <= i < |joinedRooms| ==> joinedRooms[i] !in unjoinable
      ensures file == old(file) && joinedRooms == old(joinedRooms)
    {
      var i := 0;
      while i < |joinedRooms|
        invariant i <= |joinedRooms|
        invariant listening == old(listening) + joinedRooms[..i]
        invariant forall j :: 0 <= j < i ==> joinedRooms[j] !in unjoinable
      {
        if joinedRooms[i] in unjoinable {
          return false;
        }
        listening := listening + [joinedRooms[i]];
        i := i + 1;
      }
      assert joinedRooms[..i] == joinedRooms;
      ok := true;
    }
  }

  /** When every join succeeds, every stored room gets a listener. */
  lemma AllJoinable(rooms: seq<string>)
    ensures rooms[..FirstUnjoinable(rooms, {})] == rooms
  {
    assert FirstUnjoinable(rooms, {}) == |rooms|;
  }

  /**
   * A room joined by invitation is recorded but not listened to: only after a
   * restart, which reads the file again, does it get the `on_message` listener.
   */
  method InviteThenRestart(text: string, roomId: string) returns (before: bool, after: bool)
    requires text == [] || text[|text| - 1] == '\n'
    requires '\n' !in roomId && '\r' !in roomId && Trimmed(roomId)
    ensures before <==> roomId in StoredRooms(text)
    ensures after
  {
    var bot := new Bot.Load(text);
    var ok := bot.ListenToStoredRooms({});
    AllJoinable(bot.joinedRooms);
    bot.OnInvite(roomId, true);
    before := roomId in bot.listening;
    var restarted := new Bot.Load(bot.file);
    ok := restarted.ListenToStoredRooms({});
    AllJoinable(restarted.joinedRooms);
    InviteRoundTrip(text, roomId);
    after := roomId in restarted.listening;
  }
}
