/** The transport commands, their one-byte wire encoding, and how a command is
    carried out on the first local media player with a given identity. */
module PlayerCommand {
  import opened Base

  /** The closed set of commands. The type is `#[repr(u8)]`, so each variant's
      discriminant is its position in the declaration. */
  datatype PlayerCmd = Play | Pause | PlayPause

  /** The variants in declaration order. */
  const DECLARED: seq<PlayerCmd> := [Play, Pause, PlayPause]

  /** `cmd as u8`: the discriminant is the variant's declaration position. */
  function Encode(cmd: PlayerCmd): (b: byte)
    ensures (b as int) < |DECLARED| && DECLARED[b] == cmd
  {
    match cmd
    case Play => 0
    case Pause => 1
    case PlayPause => 2
  }

  /** One more than the discriminant of the last variant. */
  const NUM_PLAYER_CMDS: byte := Encode(PlayPause) + 1

  /** NUM_PLAYER_CMDS is the number of variants, so the encoding is a dense
      range starting at 0. */
  lemma NumPlayerCmdsIsVariantCount()
    ensures NUM_PLAYER_CMDS == 3
    ensures NUM_PLAYER_CMDS as int == |DECLARED|
    ensures forall cmd: PlayerCmd :: cmd in DECLARED
  {
    forall cmd: PlayerCmd ensures cmd in DECLARED {
      assert DECLARED[Encode(cmd)] == cmd;
    }
  }

  /** Distinct commands have distinct encodings. */
  lemma EncodeInjective(a: PlayerCmd, b: PlayerCmd)
    requires Encode(a) == Encode(b)
    ensures a == b
  {
  }

  /** `TryFrom<u8>`: accepts exactly the bytes below NUM_PLAYER_CMDS, and then
      yields the command encoded by that byte. */
  function TryFrom(value: byte): (r: Result<PlayerCmd, ()>)
    ensures r.Ok? <==> value < NUM_PLAYER_CMDS
    ensures r.Ok? ==> Encode(r.value) == value
  {
    if value < NUM_PLAYER_CMDS then
      if value == 0 then Ok(Play)
      else if value == 1 then Ok(Pause)
      else Ok(PlayPause)
    else
      Err(())
  }

  /** Decoding the encoding of a command gives the command back. */
  lemma DecodeEncode(cmd: PlayerCmd)
    ensures TryFrom(Encode(cmd)) == Ok(cmd)
  {
  }

  /** Every byte from NUM_PLAYER_CMDS up to 255 is rejected. */
  lemma DecodeRejectsOutOfRange(value: byte)
    requires value >= NUM_PLAYER_CMDS
    ensures TryFrom(value) == Err(())
  {
  }

  /** An accepted byte is the encoding of the command it decodes to. */
  lemma EncodeDecode(value: byte, cmd: PlayerCmd)
    requires TryFrom(value) == Ok(cmd)
    ensures Encode(cmd) == value
  {
  }

  // ----- carrying out a command on a local player -----

  /** The error type of player lookup and control. The D-Bus error's detail
      is not modelled. */
  datatype FindingError = NoPlayerFound | DBusError

  /** The three control operations of a player. */
  datatype Control = PlayCall | PauseCall | PlayPauseCall

  /** A player on the bus: its identity and the operations its control
      surface would reject when called. */
  datatype Player = Player(identity: string, refuses: set<Control>)

  /** What creating the player finder and listing all players produced:
      the players in the order found, or the first error. */
  type Bus = Result<seq<Player>, FindingError>

  /** One control operation invoked on the player at index `player`. */
  datatype Invocation = Invocation(player: nat, call: Control)

  /** The effect and the result of `perform`: at most one invocation. */
  datatype Performed = Performed(invoked: Option<Invocation>, result: Result<(), FindingError>)

  /** `k` is the first position in `players` that has the given identity. */
  ghost predicate IsFirstWith(players: seq<Player>, identity: string, k: nat)
  {
    && k < |players|
    && players[k].identity == identity
    && forall j :: 0 <= j < k ==> players[j].identity != identity
  }

  /** `players.iter().find(|p| p.identity() == identity)`, as a position. */
  function FindFirst(players: seq<Player>, identity: string): (r: Option<nat>)
    ensures r.Some? ==> IsFirstWith(players, identity, r.value)
    ensures r.None? <==> forall j :: 0 <= j < |players| ==> players[j].identity != identity
  {
    if players == [] then None
    else if players[0].identity == identity then Some(0)
    else
      match FindFirst(players[1..], identity)
      case None => None
      case Some(k) => Some(k + 1)
  }

  /** The control operation each command maps to: Play to `play`, Pause to
      `pause`, PlayPause to `play_pause`, and no other pairing. */
  function ControlFor(cmd: PlayerCmd): (c: Control)
    ensures c == PlayCall <==> cmd == Play
    ensures c == PauseCall <==> cmd == Pause
    ensures c == PlayPauseCall <==> cmd == PlayPause
  {
    match cmd
    case Play => PlayCall
    case Pause => PauseCall
    case PlayPause => PlayPauseCall
  }

  /** Distinct commands invoke distinct operations. */
  lemma ControlForInjective(a: PlayerCmd, b: PlayerCmd)
    requires ControlFor(a) == ControlFor(b)
    ensures a == b
  {
  }

  /** `perform`: a bus error is passed on; otherwise the command's operation
      is invoked on the first player with the requested identity, and a
      rejection of that call becomes a D-Bus error; with no such player,
      nothing is invoked and the result is NoPlayerFound. */
  function Perform(bus: Bus, identity: string, cmd: PlayerCmd): (r: Performed)
    ensures bus.Err? ==> r == Performed(None, Err(bus.error))
    ensures bus.Ok? ==>
      (r.invoked.None? <==> forall j :: 0 <= j < |bus.value| ==> bus.value[j].identity != identity)
    ensures bus.Ok? && r.invoked.None? ==> r.result == Err(NoPlayerFound)
    ensures r.invoked.Some? ==>
      && bus.Ok?
      && IsFirstWith(bus.value, identity, r.invoked.value.player)
      && r.invoked.value.call == ControlFor(cmd)
      && (r.result.Ok? <==> ControlFor(cmd) !in bus.value[r.invoked.value.player].refuses)
      && (r.result.Err? ==> r.result.error == DBusError)
  {
    match bus
    case Err(e) => Performed(None, Err(e))
    case Ok(players) =>
      match FindFirst(players, identity)
      case None => Performed(None, Err(NoPlayerFound))
      case Some(k) =>
        var call := ControlFor(cmd);
        Performed(Some(Invocation(k, call)),
                  if call in players[k].refuses then Err(DBusError) else Ok(()))
  }
}
