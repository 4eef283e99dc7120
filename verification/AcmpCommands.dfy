/**
 Sending ACMP commands (avdecc/acmp.c): every command that expects an answer is tracked by an entry of the
 in-flight pool until the answer arrives or the command has timed out twice.
 */
module AcmpCommands {
  import opened InflightPool

  const PROBE_TX_COMMAND := 0       // CONNECT_TX_COMMAND outside Milan
  const PROBE_TX_RESPONSE := 1
  const DISCONNECT_TX_COMMAND := 2
  const GET_TX_STATE_COMMAND := 4
  const BIND_RX_COMMAND := 6        // CONNECT_RX_COMMAND outside Milan
  const UNBIND_RX_COMMAND := 8      // DISCONNECT_RX_COMMAND outside Milan
  const GET_RX_STATE_COMMAND := 10
  const GET_TX_CONNECTION_COMMAND := 12

  const SEQUENCE_IDS := 0x1_0000

  /** The timeout of a command in milliseconds, negative for a message that is not a command. */
  function CommandTimeout(milan: bool, msgType: nat): int {
    if milan then
      if msgType in {PROBE_TX_COMMAND, DISCONNECT_TX_COMMAND, GET_TX_STATE_COMMAND, BIND_RX_COMMAND,
                     UNBIND_RX_COMMAND, GET_RX_STATE_COMMAND, GET_TX_CONNECTION_COMMAND} then 200 else -1
    else if msgType == PROBE_TX_COMMAND then 2000
    else if msgType == BIND_RX_COMMAND then 4500
    else if msgType == UNBIND_RX_COMMAND then 500
    else if msgType in {DISCONNECT_TX_COMMAND, GET_TX_STATE_COMMAND, GET_RX_STATE_COMMAND,
                        GET_TX_CONNECTION_COMMAND} then 200
    else -1
  }

  /** The commands a controller application may ask for; acmp_ipc_rx refuses every other one. */
  predicate ControllerCommand(msgType: nat) {
    msgType in {BIND_RX_COMMAND, UNBIND_RX_COMMAND, GET_RX_STATE_COMMAND, GET_TX_STATE_COMMAND,
                GET_TX_CONNECTION_COMMAND}
  }

  /** The commands a listener itself originates: a Milan sink only probes, an IEEE 1722.1 sink also disconnects. */
  predicate ListenerCommand(milan: bool, msgType: nat) {
    msgType == PROBE_TX_COMMAND || (!milan && msgType == DISCONNECT_TX_COMMAND)
  }

  /** Commands are exactly the even message types up to 12 in both modes, so nothing that is sent can leak. */
  lemma CommandsHaveTimeouts(milan: bool, msgType: nat)
    ensures CommandTimeout(milan, msgType) > 0 <==> msgType % 2 == 0 && msgType <= 12
    ensures ControllerCommand(msgType) <==> msgType % 2 == 0 && 4 <= msgType <= 12
    ensures ControllerCommand(msgType) || ListenerCommand(milan, msgType) ==> CommandTimeout(milan, msgType) > 0
  {
    assert msgType % 2 == 0 && msgType <= 12 <==> msgType in {0, 2, 4, 6, 8, 10, 12} by {
      if msgType % 2 == 0 && msgType <= 12 {
        var half := msgType / 2;
        assert half in {0, 1, 2, 3, 4, 5, 6};
        assert msgType == 2 * half;
      }
    }
  }

  /** A command is sent twice before it is given up. Outside Milan, a listener forwards the connections and
    disconnections that a controller asks for to the talker: the controller still waits when the listener gives up. */
  lemma ControllerOutlastsListener()
    ensures CommandTimeout(false, BIND_RX_COMMAND) > 2 * CommandTimeout(false, PROBE_TX_COMMAND)
    ensures CommandTimeout(false, UNBIND_RX_COMMAND) > 2 * CommandTimeout(false, DISCONNECT_TX_COMMAND)
    ensures forall milan, m :: CommandTimeout(milan, m) > 0 && (milan || m !in {0, 6, 8}) ==>
              CommandTimeout(milan, m) == 200
  {
  }

  ghost predicate NothingHeld(place: seq<Place>) {
    forall k :: 0 <= k < |place| ==> place[k] != Held
  }

  /**
   acmp_send_cmd for a first transmission.  An entry that was obtained for a message without a timeout is
   neither queued nor given back: the pool then loses it.  Without a free entry the command goes out untracked.
   */
  method SendCmd(pool: Pool, milan: bool, command: Command) returns (next: nat)
    requires pool.Inv() && NothingHeld(pool.place) && command.sequenceId < SEQUENCE_IDS && !command.retried
    requires pool.firing == -1
    modifies pool, pool.storage
    ensures pool.Inv() && pool.firing == -1 && next == (command.sequenceId + 1) % SEQUENCE_IDS
    ensures NothingHeld(pool.place) <==> CommandTimeout(milan, command.msgType) >= 0 || old(pool.free) == []
    ensures pool.Flight(ACMP_HEAD) ==
            (if CommandTimeout(milan, command.msgType) >= 0 && old(pool.free) != []
             then [command] else []) + old(pool.Flight(ACMP_HEAD))
    ensures pool.free == if old(pool.free) == [] then [] else old(pool.free)[1..]
    ensures pool.lists[1] == old(pool.lists[1]) && pool.lists[2] == old(pool.lists[2])
  {
    var found, k := pool.Get();
    if found {
      if CommandTimeout(milan, command.msgType) < 0 {
        assert pool.place[k] == Held;
      } else {
        pool.Start(ACMP_HEAD, k, command);
      }
    }
    next := (command.sequenceId + 1) % SEQUENCE_IDS;
  }
}
