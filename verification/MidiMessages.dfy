// MIDI messages in USB-MIDI event packets (section 4 of the USB Device Class Definition for
// MIDI Devices 1.0): code index numbers and message sizes.
module MidiMessages {
  import opened MachineInts

  // Bytes of a MIDI message by code index number, 0 for the reserved ones.
  const CIN_TO_LEN: seq<u8> := [0, 0, 2, 3, 3, 1, 2, 3, 3, 3, 3, 3, 2, 2, 3, 1]

  // Code index number of a system message.
  const SYS_TO_CIN: seq<u8> := [0, 2, 3, 2, 0, 0, 5, 0, 0xf, 0, 0xf, 0xf, 0xf, 0, 0xf, 0xf]

  function StatusToCin(status: u8): (cin: u8)
    ensures cin < 16
  {
    if status < 0xF0 then status / 16 else SYS_TO_CIN[status % 16]
  }

  function SizeOf(status: u8): (n: u8)
    ensures n <= 3
  {
    CIN_TO_LEN[StatusToCin(status)]
  }

  // The length of a message by its status byte, as MIDI 1.0 has it; 0 for System Exclusive
  // and for what MIDI leaves undefined.
  function MessageLength(status: u8): nat
    requires status >= 0x80
  {
    if status < 0xC0 then 3           // Note Off, Note On, key pressure, control change
    else if status < 0xE0 then 2      // program change, channel pressure
    else if status < 0xF0 then 3      // pitch bend
    else if status == 0xF2 then 3     // song position
    else if status == 0xF1 || status == 0xF3 then 2   // time code, song select
    else if status == 0xF6 || status == 0xF8 || status == 0xFA || status == 0xFB || status == 0xFC
            || status == 0xFE || status == 0xFF then 1   // tune request, real-time messages
    else 0
  }

  // The two tables together give every message its length.
  lemma SizesAreRight(status: u8)
    requires status >= 0x80
    ensures SizeOf(status) == MessageLength(status)
  {
  }

  // One event packet carries one message: cable and code, the message, and zeros.
  predicate Carries(packet: seq<u8>, message: seq<u8>, cable: u8) {
    && |packet| == 4 && |message| <= 3 && packet[0] / 16 == cable % 16
    && packet[1..1 + |message|] == message
    && forall i :: |message| < i < 4 ==> packet[i] == 0
  }

  // The receiver reads the length of the message off the code.
  lemma PacketTellsSize(packet: seq<u8>, message: seq<u8>, cable: u8)
    requires message != [] && message[0] >= 0x80 && |message| == MessageLength(message[0])
    requires Carries(packet, message, cable) && packet[0] % 16 == StatusToCin(message[0])
    ensures var n := CIN_TO_LEN[packet[0] % 16]; n == |message| && packet[1..1 + n] == message
  {
    SizesAreRight(message[0]);
  }
}
