// The voice allocator of the synthesizer's event loop.
module Voices {
  import opened MachineInts

  // What a received MIDI message asks for.
  datatype Event = NoteOn(note: u8, velocity: u8) | NoteOff(note: u8) | Other

  // Upper half of the status byte: 9 is Note On, 8 is Note Off.
  function EventOf(packet: seq<u8>): Event
    requires |packet| == 3
  {
    if packet[0] / 16 == 9 then NoteOn(packet[1], packet[2])
    else if packet[0] / 16 == 8 then NoteOff(packet[1])
    else Other
  }

  // The channel, in the lower half, makes no difference.
  lemma ChannelsAreIgnored(channel: u8, note: u8, velocity: u8)
    requires channel < 16
    ensures EventOf([0x90 + channel, note, velocity]) == NoteOn(note, velocity)
    ensures EventOf([0x80 + channel, note, velocity]) == NoteOff(note)
    ensures forall status: u8 :: !(0x80 <= status < 0xA0) ==> EventOf([status, note, velocity]) == Other
  {
  }

  // A voice: its note_used flag, and the note and the volume in its register.
  datatype Voice = Voice(used: bool, note: u8, volume: u8)

  const SILENT := Voice(false, 0, 0)

  // (MIDI_packet[1] << 8) + MIDI_packet[2]
  function Register(note: u8, volume: u8): u16 {
    Word(volume, note)
  }

  // ----- one event -----

  function FirstFree(vs: seq<Voice>): (i: nat)
    ensures i <= |vs|
    ensures i < |vs| ==> !vs[i].used
    ensures forall k :: 0 <= k < i ==> vs[k].used
  {
    if vs == [] || !vs[0].used then 0 else 1 + FirstFree(vs[1..])
  }

  // The first voice whose register shows the note; a free one shows note 0.
  function FirstWith(vs: seq<Voice>, note: u8): (i: nat)
    ensures i <= |vs|
    ensures i < |vs| ==> vs[i].note == note
    ensures forall k :: 0 <= k < i ==> vs[k].note != note
  {
    if vs == [] || vs[0].note == note then 0 else 1 + FirstWith(vs[1..], note)
  }

  function Step(vs: seq<Voice>, e: Event): (r: seq<Voice>)
    ensures |r| == |vs|
  {
    match e
    case NoteOn(note, velocity) =>
      var i := FirstFree(vs);
      if i < |vs| then vs[i := Voice(true, note, velocity)] else vs
    case NoteOff(note) =>
      var i := FirstWith(vs, note);
      if i < |vs| then vs[i := SILENT] else vs
    case Other => vs
  }

  datatype Synth = Synth(voices: seq<Voice>, first: bool)

  // The first Note On is swallowed.
  function Handle(s: Synth, e: Event): Synth {
    if s.first && e.NoteOn? then s.(first := false)
    else s.(voices := Step(s.voices, e))
  }

  // ----- the notes that sound -----

  function One(v: Voice): multiset<u8> {
    if v.used then multiset{v.note} else multiset{}
  }

  function Sounding(vs: seq<Voice>): multiset<u8> {
    if vs == [] then multiset{} else One(vs[0]) + Sounding(vs[1..])
  }

  // A bag with room for n notes.
  function BagStep(bag: multiset<u8>, e: Event, n: nat): multiset<u8> {
    match e
    case NoteOn(note, _) => if |bag| < n then bag + multiset{note} else bag
    case NoteOff(note) => bag - multiset{note}
    case Other => bag
  }

  lemma Swap(a: multiset<u8>, b: multiset<u8>, s: multiset<u8>)
    ensures a + s + b == b + s + a
  {
  }

  lemma Shift(o: multiset<u8>, t: multiset<u8>, a: multiset<u8>, s: multiset<u8>, b: multiset<u8>)
    requires t + a == s + b
    ensures o + t + a == o + s + b
  {
    assert o + t + a == o + (t + a) && o + s + b == o + (s + b);
  }

  lemma {:induction false} SoundingSet(vs: seq<Voice>, i: nat, v: Voice)
    requires i < |vs|
    ensures Sounding(vs[i := v]) + One(vs[i]) == Sounding(vs) + One(v)
  {
    hide One;
    if i == 0 {
      assert vs[i := v][1..] == vs[1..];
      Swap(One(v), One(vs[i]), Sounding(vs[1..]));
    } else {
      assert vs[i := v][1..] == vs[1..][i - 1 := v];
      SoundingSet(vs[1..], i - 1, v);
      Shift(One(vs[0]), Sounding(vs[1..][i - 1 := v]), One(vs[i]), Sounding(vs[1..]), One(v));
    }
  }

  lemma {:induction false} SoundingMember(vs: seq<Voice>, note: u8)
    ensures note in Sounding(vs) <==> exists i :: 0 <= i < |vs| && vs[i].used && vs[i].note == note
  {
    if vs == [] {
    } else {
      SoundingMember(vs[1..], note);
      assert forall i :: 0 < i < |vs| ==> vs[i] == vs[1..][i - 1];
    }
  }

  // There is a free voice exactly when the bag has room.
  lemma {:induction false} SoundingSize(vs: seq<Voice>)
    ensures |Sounding(vs)| <= |vs|
    ensures |Sounding(vs)| < |vs| <==> FirstFree(vs) < |vs|
  {
    if vs == [] {
    } else {
      SoundingSize(vs[1..]);
    }
  }

  // A free voice has a zero register.
  predicate Silent(vs: seq<Voice>) {
    forall i :: 0 <= i < |vs| && !vs[i].used ==> vs[i] == SILENT
  }

  lemma StepKeepsSilent(vs: seq<Voice>, e: Event)
    requires Silent(vs)
    ensures Silent(Step(vs, e))
  {
  }

  // The first voice in use that plays note 0.
  function FirstUsedZero(vs: seq<Voice>): (i: nat)
    ensures i <= |vs|
    ensures i < |vs| ==> vs[i].used && vs[i].note == 0
    ensures forall k :: 0 <= k < i ==> !(vs[k].used && vs[k].note == 0)
  {
    if vs == [] || (vs[0].used && vs[0].note == 0) then 0 else 1 + FirstUsedZero(vs[1..])
  }

  // A Note Off that takes a free voice for the one that plays note 0.
  predicate Misses(vs: seq<Voice>, e: Event) {
    e == NoteOff(0) && 0 in Sounding(vs) && FirstFree(vs) < FirstUsedZero(vs)
  }

  lemma NoteOnAdds(vs: seq<Voice>, note: u8, velocity: u8)
    ensures Sounding(Step(vs, NoteOn(note, velocity))) == BagStep(Sounding(vs), NoteOn(note, velocity), |vs|)
  {
    hide Sounding;
    SoundingSize(vs);
    var i := FirstFree(vs);
    if i < |vs| {
      SoundingSet(vs, i, Voice(true, note, velocity));
    }
  }

  lemma NoteOffRemoves(vs: seq<Voice>, note: u8)
    requires Silent(vs)
    ensures Sounding(Step(vs, NoteOff(note))) == Sounding(vs) - multiset{note} <==> !Misses(vs, NoteOff(note))
  {
    hide Sounding;
    SoundingMember(vs, note);
    var i := FirstWith(vs, note);
    if i < |vs| {
      SoundingSet(vs, i, SILENT);
      if vs[i].used {
        assert Sounding(Step(vs, NoteOff(note))) + multiset{note} == Sounding(vs);
      } else {
        assert vs[i := SILENT] == vs;
      }
    }
  }

  // One event changes the sounding notes like a bag, except for just that case.
  lemma StepIsBagStep(vs: seq<Voice>, e: Event)
    requires Silent(vs)
    ensures Sounding(Step(vs, e)) == BagStep(Sounding(vs), e, |vs|) <==> !Misses(vs, e)
  {
    match e
    case NoteOn(note, velocity) => NoteOnAdds(vs, note, velocity);
    case NoteOff(note) => NoteOffRemoves(vs, note);
    case Other =>
  }

  // ----- whole runs -----

  function Run(s: Synth, es: seq<Event>): Synth
    decreases |es|
  {
    if es == [] then s else Run(Handle(s, es[0]), es[1..])
  }

  // The bag after the same events, the first Note On left out.
  function BagRun(bag: multiset<u8>, es: seq<Event>, n: nat, first: bool): multiset<u8>
    decreases |es|
  {
    if es == [] then bag
    else if first && es[0].NoteOn? then BagRun(bag, es[1..], n, false)
    else BagRun(BagStep(bag, es[0], n), es[1..], n, first)
  }

  // A voice is in use exactly when its register is not zero.
  predicate UsedIsNonzero(vs: seq<Voice>) {
    forall i :: 0 <= i < |vs| ==> (vs[i].used <==> Register(vs[i].note, vs[i].volume) != 0)
  }

  predicate Without(es: seq<Event>, e: Event) {
    forall i :: 0 <= i < |es| ==> es[i] != e
  }

  lemma RunFirst(s: Synth, e: Event, es: seq<Event>)
    ensures Run(s, [e] + es) == Run(Handle(s, e), es)
  {
    assert ([e] + es)[1..] == es;
  }

  lemma RunNone(s: Synth)
    ensures Run(s, []) == s
  {
  }

  lemma WithoutRest(es: seq<Event>, e: Event)
    requires es != [] && Without(es, e)
    ensures Without(es[1..], e) && es[0] != e
  {
  }

  // For any number of voices and any events but a Note Off for note 0: the notes that sound
  // are those of a bounded bag.
  lemma {:induction false} VoicesAreABag(s: Synth, es: seq<Event>)
    requires Silent(s.voices) && Without(es, NoteOff(0))
    ensures var r := Run(s, es).voices;
            && |r| == |s.voices| && Silent(r)
            && Sounding(r) == BagRun(Sounding(s.voices), es, |s.voices|, s.first)
    decreases |es|
  {
    hide Sounding, Step, BagStep, Silent;
    if es == [] {
    } else {
      var s' := Handle(s, es[0]);
      StepKeepsSilent(s.voices, es[0]);
      StepIsBagStep(s.voices, es[0]);
      WithoutRest(es, NoteOff(0));
      VoicesAreABag(s', es[1..]);
    }
  }

  // No event of a run is a Note Off that misses.
  predicate NoneMisses(s: Synth, es: seq<Event>)
    decreases |es|
  {
    es == [] || (!Misses(s.voices, es[0]) && NoneMisses(Handle(s, es[0]), es[1..]))
  }

  // After the first k events the notes that sound are those of the bag.
  predicate AgreesAfter(s: Synth, es: seq<Event>, k: nat)
    requires k <= |es|
  {
    Sounding(Run(s, es[..k]).voices) == BagRun(Sounding(s.voices), es[..k], |s.voices|, s.first)
  }

  lemma AgreesLater(s: Synth, es: seq<Event>, k: nat)
    requires Silent(s.voices) && 0 < k <= |es| && !Misses(s.voices, es[0])
    ensures AgreesAfter(s, es, k) <==> AgreesAfter(Handle(s, es[0]), es[1..], k - 1)
  {
    StepIsBagStep(s.voices, es[0]);
    hide Sounding, Step, BagStep, Misses;
    assert es[..k][1..] == es[1..][..k - 1] && es[..k][0] == es[0];
  }

  lemma OneEvent(s: Synth, bag: multiset<u8>, e: Event, n: nat)
    requires !e.NoteOn?
    ensures Run(s, [e]).voices == Step(s.voices, e) && BagRun(bag, [e], n, s.first) == BagStep(bag, e, n)
  {
    hide Step, BagStep;
    assert [e] + [] == [e] && [e][1..] == [];
    RunFirst(s, e, []);
    assert BagRun(BagStep(bag, e, n), [], n, s.first) == BagStep(bag, e, n);
  }

  lemma AgreesNot(s: Synth, es: seq<Event>)
    requires Silent(s.voices) && es != [] && Misses(s.voices, es[0])
    ensures !AgreesAfter(s, es, 1)
  {
    assert es[0] == NoteOff(0);
    hide Sounding, Step, BagStep, Misses, Run, BagRun, Silent;
    StepIsBagStep(s.voices, es[0]);
    OneEvent(s, Sounding(s.voices), es[0], |s.voices|);
    assert es[..1] == [es[0]];
  }

  lemma AgreesAtFirst(s: Synth, es: seq<Event>)
    ensures AgreesAfter(s, es, 0)
  {
    assert es[..0] == [];
  }

  // In every run: the notes that sound are those of the bag after each event, if and only if
  // no event misses.
  lemma {:induction false} BagExactly(s: Synth, es: seq<Event>)
    requires Silent(s.voices)
    ensures (forall k :: 0 <= k <= |es| ==> AgreesAfter(s, es, k)) <==> NoneMisses(s, es)
    decreases |es|
  {
    hide AgreesAfter, Misses, Silent, Step;
    AgreesAtFirst(s, es);
    if es == [] {
    } else if Misses(s.voices, es[0]) {
      AgreesNot(s, es);
    } else {
      StepKeepsSilent(s.voices, es[0]);
      BagExactly(Handle(s, es[0]), es[1..]);
      forall k | 0 < k <= |es|
        ensures AgreesAfter(s, es, k) <==> AgreesAfter(Handle(s, es[0]), es[1..], k - 1)
      {
        AgreesLater(s, es, k);
      }
      assert forall k :: 0 <= k < |es| && AgreesAfter(s, es, k + 1) ==> AgreesAfter(Handle(s, es[0]), es[1..], k);
    }
  }

  lemma RegisterIsZero(v: Voice)
    ensures Register(v.note, v.volume) == 0 <==> v.note == 0 && v.volume == 0
  {
  }

  // The registers tell which voices are in use, until a Note On for note 0 with velocity 0
  // finds a free voice.
  lemma StepKeepsRegisters(vs: seq<Voice>, e: Event)
    requires Silent(vs) && UsedIsNonzero(vs)
    ensures UsedIsNonzero(Step(vs, e)) <==> !(e == NoteOn(0, 0) && FirstFree(vs) < |vs|)
  {
    hide Register, FirstFree, FirstWith;
    RegisterIsZero(SILENT);
    if e.NoteOn? {
      var i, v := FirstFree(vs), Voice(true, e.note, e.velocity);
      RegisterIsZero(v);
      if i < |vs| {
        assert Step(vs, e)[i] == v;
      }
    }
  }

  // For any events but a Note On for note 0 with velocity 0: the registers tell which
  // voices are in use.
  lemma {:induction false} RegistersTellUse(s: Synth, es: seq<Event>)
    requires Silent(s.voices) && UsedIsNonzero(s.voices) && Without(es, NoteOn(0, 0))
    ensures UsedIsNonzero(Run(s, es).voices)
    decreases |es|
  {
    hide Step, Silent, UsedIsNonzero;
    if es == [] {
    } else {
      var s' := Handle(s, es[0]);
      StepKeepsSilent(s.voices, es[0]);
      StepKeepsRegisters(s.voices, es[0]);
      WithoutRest(es, NoteOn(0, 0));
      RegistersTellUse(s', es[1..]);
    }
  }

  // A voice is put to use with a register that stays zero.
  predicate Spoils(s: Synth, e: Event) {
    !s.first && e == NoteOn(0, 0) && FirstFree(s.voices) < |s.voices|
  }

  predicate NoneSpoils(s: Synth, es: seq<Event>)
    decreases |es|
  {
    es == [] || (!Spoils(s, es[0]) && NoneSpoils(Handle(s, es[0]), es[1..]))
  }

  predicate TellsAfter(s: Synth, es: seq<Event>, k: nat)
    requires k <= |es|
  {
    UsedIsNonzero(Run(s, es[..k]).voices)
  }

  lemma TellsLater(s: Synth, es: seq<Event>, k: nat)
    requires 0 < k <= |es|
    ensures TellsAfter(s, es, k) <==> TellsAfter(Handle(s, es[0]), es[1..], k - 1)
  {
    hide UsedIsNonzero, Handle;
    assert es[..k][1..] == es[1..][..k - 1] && es[..k][0] == es[0];
  }

  lemma TellsAtFirst(s: Synth, es: seq<Event>)
    ensures TellsAfter(s, es, 0) <==> UsedIsNonzero(s.voices)
  {
    assert es[..0] == [];
  }

  lemma HandleKeepsRegisters(s: Synth, e: Event)
    requires Silent(s.voices) && UsedIsNonzero(s.voices)
    ensures var s' := Handle(s, e); Silent(s'.voices) && (UsedIsNonzero(s'.voices) <==> !Spoils(s, e))
  {
    hide UsedIsNonzero, Silent, Step;
    StepKeepsSilent(s.voices, e);
    StepKeepsRegisters(s.voices, e);
  }

  // In every run: the registers tell after each event which voices are in use, if and only if
  // no event puts a voice to use with a register that stays zero.
  lemma {:induction false} RegistersTellExactly(s: Synth, es: seq<Event>)
    requires Silent(s.voices) && UsedIsNonzero(s.voices)
    ensures (forall k :: 0 <= k <= |es| ==> TellsAfter(s, es, k)) <==> NoneSpoils(s, es)
    decreases |es|
  {
    hide UsedIsNonzero, Silent, Handle, Spoils, TellsAfter;
    TellsAtFirst(s, es);
    if es == [] {
    } else {
      var s' := Handle(s, es[0]);
      HandleKeepsRegisters(s, es[0]);
      TellsAtFirst(s', es[1..]);
      TellsLater(s, es, 1);
      if !Spoils(s, es[0]) {
        RegistersTellExactly(s', es[1..]);
        forall k | 0 < k <= |es|
          ensures TellsAfter(s, es, k) <==> TellsAfter(s', es[1..], k - 1)
        {
          TellsLater(s, es, k);
        }
        assert forall k :: 0 <= k < |es| && TellsAfter(s, es, k + 1) ==> TellsAfter(s', es[1..], k);
      }
    }
  }

  lemma StuckVoice(s: Synth, velocity: u8)
    requires s.voices == [SILENT, Voice(true, 0, velocity)]
    ensures Sounding(s.voices) == multiset{0} && Misses(s.voices, NoteOff(0))
  {
    assert s.voices[1..] == [Voice(true, 0, velocity)] && s.voices[1..][1..] == [];
    assert Sounding([]) == multiset{} && Sounding(s.voices[1..]) == multiset{0};
  }

  // Note 0 can be missed: with a free voice in front of it, it cannot be turned off.  Four
  // events lead there from two silent voices, the first of them swallowed.
  lemma NoteZeroSticks(x: u8, velocity: u8)
    ensures var es := [NoteOn(x, velocity), NoteOn(60, velocity), NoteOn(0, velocity), NoteOff(60)];
            var r := Run(Synth([SILENT, SILENT], true), es);
            && r.voices == [SILENT, Voice(true, 0, velocity)] && Sounding(r.voices) == multiset{0}
            && Misses(r.voices, NoteOff(0)) && Run(r, [NoteOff(0)]) == r
  {
    var s0, s1 := Synth([SILENT, SILENT], true), Synth([SILENT, SILENT], false);
    var s2 := Synth([Voice(true, 60, velocity), SILENT], false);
    var s3 := Synth([Voice(true, 60, velocity), Voice(true, 0, velocity)], false);
    var s4 := Synth([SILENT, Voice(true, 0, velocity)], false);
    assert Handle(s0, NoteOn(x, velocity)) == s1;
    assert Handle(s1, NoteOn(60, velocity)) == s2;
    assert Handle(s2, NoteOn(0, velocity)) == s3;
    assert Handle(s3, NoteOff(60)) == s4;
    assert Handle(s4, NoteOff(0)) == s4;
    StuckVoice(s4, velocity);
    hide Handle, Run, Sounding, Misses;
    RunFirst(s4, NoteOff(0), []);
    RunFirst(s3, NoteOff(60), []);
    RunFirst(s2, NoteOn(0, velocity), [NoteOff(60)]);
    RunFirst(s1, NoteOn(60, velocity), [NoteOn(0, velocity), NoteOff(60)]);
    RunFirst(s0, NoteOn(x, velocity), [NoteOn(60, velocity), NoteOn(0, velocity), NoteOff(60)]);
    RunNone(s4);
    assert [NoteOff(0)] + [] == [NoteOff(0)] && [NoteOff(60)] + [] == [NoteOff(60)];
    assert [NoteOn(0, velocity)] + [NoteOff(60)] == [NoteOn(0, velocity), NoteOff(60)];
    assert [NoteOn(60, velocity)] + [NoteOn(0, velocity), NoteOff(60)]
        == [NoteOn(60, velocity), NoteOn(0, velocity), NoteOff(60)];
    assert [NoteOn(x, velocity)] + [NoteOn(60, velocity), NoteOn(0, velocity), NoteOff(60)]
        == [NoteOn(x, velocity), NoteOn(60, velocity), NoteOn(0, velocity), NoteOff(60)];
  }

  // ----- the event loop's variables -----

  // The flags and the registers, voice by voice.
  function Voices(used: seq<bool>, regs: seq<u16>): (vs: seq<Voice>)
    requires |used| == |regs|
    ensures |vs| == |used|
  {
    seq(|used|, i requires 0 <= i < |used| => Voice(used[i], regs[i] / 0x100, regs[i] % 0x100))
  }

  lemma WriteVoice(used: seq<bool>, regs: seq<u16>, i: nat, flag: bool, note: u8, volume: u8)
    requires i < |used| == |regs|
    ensures Voices(used[i := flag], regs[i := Register(note, volume)])
            == Voices(used, regs)[i := Voice(flag, note, volume)]
  {
  }

  lemma NothingHappens(vs: seq<Voice>)
    ensures Step(vs, Other) == vs
  {
  }

  class EventLoop {
    const noteUsed: array<bool>
    const noteVol: array<u16>
    var firstNote: bool

    constructor (numNotes: nat)
      ensures Valid() && State() == Synth(seq(numNotes, _ => SILENT), true) && fresh(noteUsed) && fresh(noteVol)
    {
      noteUsed := new bool[numNotes](_ => false);
      noteVol := new u16[numNotes](_ => 0);
      firstNote := true;
    }

    ghost predicate Valid()
      reads this
    {
      noteUsed.Length == noteVol.Length
    }

    ghost function State(): Synth
      requires Valid()
      reads this, noteUsed, noteVol
    {
      Synth(Voices(noteUsed[..], noteVol[..]), firstNote)
    }

    method PlayNote(note: u8, velocity: u8)
      requires Valid()
      modifies noteUsed, noteVol
      ensures State() == old(State()).(voices := Step(old(State()).voices, NoteOn(note, velocity)))
      ensures var i := FirstFree(old(State()).voices);
              noteVol[..] == if i < noteVol.Length then old(noteVol[..])[i := 256 * note + velocity]
                             else old(noteVol[..])
    {
      ghost var vs, used, regs := State().voices, noteUsed[..], noteVol[..];
      var available := -1;
      for i := 0 to noteUsed.Length
        invariant noteUsed[..] == used && forall k :: 0 <= k < i ==> vs[k].used
      {
        if !noteUsed[i] {
          available := i;
          assert !vs[i].used;
          noteUsed[i] := true;
          break;
        }
        assert vs[i].used;
      }
      if available != -1 {
        WriteVoice(used, regs, available, true, note, velocity);
        noteVol[available] := Register(note, velocity);
        assert noteUsed[..] == used[available := true];
        assert noteVol[..] == regs[available := Register(note, velocity)];
      }
    }

    method StopNote(note: u8)
      requires Valid()
      modifies noteUsed, noteVol
      ensures State() == old(State()).(voices := Step(old(State()).voices, NoteOff(note)))
      ensures var i := FirstWith(old(State()).voices, note);
              noteVol[..] == if i < noteVol.Length then old(noteVol[..])[i := 0] else old(noteVol[..])
    {
      ghost var vs, used, regs := State().voices, noteUsed[..], noteVol[..];
      for i := 0 to noteVol.Length
        invariant noteUsed[..] == used && noteVol[..] == regs && forall k :: 0 <= k < i ==> vs[k].note != note
      {
        if noteVol[i] / 0x100 == note {
          assert vs[i].note == note;
          WriteVoice(used, regs, i, false, 0, 0);
          noteVol[i] := 0;
          noteUsed[i] := false;
          assert noteUsed[..] == used[i := false] && noteVol[..] == regs[i := Register(0, 0)];
          return;
        }
        assert vs[i].note != note;
      }
    }

    // One received message.
    method HandlePacket(packet: seq<u8>)
      requires Valid() && |packet| == 3
      modifies this`firstNote, noteUsed, noteVol
      ensures State() == Handle(old(State()), EventOf(packet))
      ensures 0x90 <= packet[0] < 0xA0 ==>
                && !firstNote
                && State().voices == if old(firstNote) then old(State()).voices
                                     else Step(old(State()).voices, NoteOn(packet[1], packet[2]))
      ensures 0x80 <= packet[0] < 0x90 ==>
                State() == old(State()).(voices := Step(old(State()).voices, NoteOff(packet[1])))
      ensures !(0x80 <= packet[0] < 0xA0) ==> State() == old(State())
    {
      hide Step, Voices;
      var kind := packet[0] / 16;
      if kind == 9 {
        if firstNote {
          firstNote := false;
          return;
        }
        PlayNote(packet[1], packet[2]);
      } else if kind == 8 {
        StopNote(packet[1]);
      } else {
        NothingHappens(State().voices);
      }
    }
  }
}
