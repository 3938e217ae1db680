/**
 * The two cascaded 8259A interrupt controllers (PIC.cc). I/O ports are a
 * map from port number to the last byte written there, which is what `inb`
 * reads back, plus the ordered log of every `outb`.
 */
module Pic {
  import opened Bitmaps

  /** An x86 I/O port number. */
  type Port = x: int | 0 <= x < 0x1_0000

  /** The controllers' command and data ports. */
  const Pic1Command: Port := 0x20
  const Pic1Data: Port := 0x21
  const Pic2Command: Port := 0xA0
  const Pic2Data: Port := 0xA1

  /** ICW1 `Initialize + ICW4Required`, ICW4 `X86Mode` and OCW2 `NonSpecificEOI`. */
  const Icw1: bv8 := 0x10 + 0x01
  const Icw4X86Mode: bv8 := 0x01
  const NonSpecificEoi: bv8 := 0x20

  /** One `outb`. */
  datatype Write = Write(port: Port, value: bv8)

  /** The port space `inb`/`outb` talk to. */
  class Ports {
    var values: map<Port, bv8>
    var log: seq<Write>

    constructor (initial: map<Port, bv8>)
      ensures values == initial && log == []
    {
      values := initial;
      log := [];
    }

    /** `io::inb`. */
    method In(port: Port) returns (value: bv8)
      requires port in values
      ensures value == values[port]
    {
      value := values[port];
    }

    /** `io::outb`. */
    method Out(port: Port, value: bv8)
      modifies this
      ensures values == old(values)[port := value]
      ensures log == old(log) + [Write(port, value)]
    {
      values := values[port := value];
      log := log + [Write(port, value)];
    }
  }

  /** `pic2IRQMask` as the loop leaves it after `i` runs from 1 to `n`: 1 shifted left n - 1 times in a u8. */
  function ShiftedMask(n: bv8): bv8
    requires n < 16
  {
    if n <= 1 then 1 else if n <= 8 then 1 << (n - 1) else 0
  }

  /** PIC1's ICW3 as `initializePICs` computes it. */
  function CascadeMaskAsWritten(pic2Irq: bv8): bv8
  {
    if pic2Irq < 16 then ShiftedMask(pic2Irq) else 0
  }

  /** The 8259A's master ICW3: bit `pic2Irq` set for the input the slave is wired to. */
  function CascadeMask(pic2Irq: bv8): (m: bv8)
  {
    if pic2Irq < 8 then 1 << pic2Irq else 0
  }

  /** The computation of `pic2IRQMask`, with its shift loop. */
  method BuildCascadeMask(pic2Irq: bv8) returns (mask: bv8)
    ensures mask == CascadeMaskAsWritten(pic2Irq)
  {
    mask := 0;
    if pic2Irq < 16 {
      mask := 1;
      var i: bv8 := 1;
      while i < pic2Irq
        invariant 1 <= i < 16 && (i <= pic2Irq || i == 1)
        invariant mask == ShiftedMask(i)
        decreases 16 - i as int
      {
        mask := mask << 1;
        i := i + 1;
      }
    }
  }

  /** For a slave on inputs 1 to 8 the as-written mask is the one for the input below it. */
  lemma CascadeMaskOffByOne(pic2Irq: bv8)
    requires 1 <= pic2Irq <= 8
    ensures CascadeMaskAsWritten(pic2Irq) == CascadeMask(pic2Irq - 1)
  {
  }

  /** The PC wiring, slave on input 2: the code sends 0x02 (input 1), the 8259A expects 0x04. */
  lemma CascadeMaskOnIrq2()
    ensures CascadeMaskAsWritten(2) == 0x02 && CascadeMask(2) == 0x04
  {
  }

  /** The intended mask has exactly the slave's bit set. */
  lemma CascadeMaskSingleBit(pic2Irq: bv8)
    requires pic2Irq < 8
    ensures forall j: nat :: j < 8 ==> (BitOf(CascadeMask(pic2Irq), j) <==> j == pic2Irq as nat)
  {
    assert CascadeMask(pic2Irq) == Mask(pic2Irq as nat);
  }

  /** `offset &= ~uint8_t(0x7)`. */
  function VectorBase(offset: bv8): bv8 { offset & !7 }

  /** The vector base is the offset rounded down to a multiple of 8. */
  lemma VectorBaseRoundsDown(offset: bv8)
    ensures VectorBase(offset) as int == (offset as int / 8) * 8
    ensures VectorBase(offset) <= offset && offset - VectorBase(offset) < 8
  {
  }

  /** The eight bytes `initializePICs` sends, given PIC1's ICW3. */
  function InitWrites(pic1Offset: bv8, pic2Offset: bv8, pic2Irq: bv8, masterIcw3: bv8): (w: seq<Write>)
  {
    [Write(Pic1Command, Icw1), Write(Pic1Data, VectorBase(pic1Offset)), Write(Pic1Data, masterIcw3), Write(Pic1Data, Icw4X86Mode),
     Write(Pic2Command, Icw1), Write(Pic2Data, VectorBase(pic2Offset)), Write(Pic2Data, pic2Irq), Write(Pic2Data, Icw4X86Mode)]
  }

  /**
   * The initialization words go out in the 8259A's order: ICW1 on the
   * command port, then ICW2-ICW4 on the data port, PIC1 before PIC2; both
   * vector bases are multiples of 8.
   */
  lemma InitWritesOrder(pic1Offset: bv8, pic2Offset: bv8, pic2Irq: bv8, masterIcw3: bv8)
    ensures var w := InitWrites(pic1Offset, pic2Offset, pic2Irq, masterIcw3);
      && |w| == 8
      && (forall k :: 0 <= k < 4 ==> w[k].port == (if k == 0 then Pic1Command else Pic1Data))
      && (forall k :: 4 <= k < 8 ==> w[k].port == (if k == 4 then Pic2Command else Pic2Data))
      && w[0].value == w[4].value == Icw1 && w[3].value == w[7].value == Icw4X86Mode
      && w[1].value as int % 8 == 0 && w[5].value as int % 8 == 0
  {
    VectorBaseRoundsDown(pic1Offset);
    VectorBaseRoundsDown(pic2Offset);
  }

  /** `portForIRQ`: PIC1's data port for IRQs 0-7, PIC2's for the rest. */
  function PortForIrq(irq: bv8): (port: Port)
    ensures port == Pic1Data <==> irq < 8
    ensures port == Pic2Data <==> irq >= 8
  {
    if irq < 8 then Pic1Data else Pic2Data
  }

  /** The bit of the mask register `enableIRQ`/`disableIRQ` address: irq, less 8 on PIC2. */
  function LineOf(irq: bv8): (line: nat)
    ensures irq < 16 ==> line < 8 && line == irq as nat % 8
  {
    if irq >= 8 then (irq - 8) as nat else irq as nat
  }

  /** The bytes `endOfInterrupt` sends. */
  function EoiWrites(irq: bv8): (w: seq<Write>)
    ensures |w| == (if irq >= 8 then 2 else 1)
    ensures w[|w| - 1] == Write(Pic1Command, NonSpecificEoi)
    ensures irq >= 8 ==> w[0] == Write(Pic2Command, NonSpecificEoi)
  {
    (if irq >= 8 then [Write(Pic2Command, NonSpecificEoi)] else []) + [Write(Pic1Command, NonSpecificEoi)]
  }

  /**
   * One controller's interrupt mask register (IMR) as the 8259A data sheet
   * describes it, with the number of initialization words it still expects
   * on its data port.
   */
  datatype MaskRegister = MaskRegister(imr: bv8, expected: nat)

  /**
   * The register after one `outb`: ICW1 (a command byte with bit 4 set)
   * clears the IMR and announces ICW2, ICW3 unless bit 1 (single) is set,
   * and ICW4 when bit 0 asks for it; a data byte is an initialization word
   * while one is expected and OCW1, the new IMR, after that; writes to other
   * ports and other command bytes leave the IMR alone.
   */
  function Receive(r: MaskRegister, w: Write, command: Port, data: Port): MaskRegister
  {
    if w.port == command && w.value & 0x10 != 0 then
      MaskRegister(0, 1 + (if w.value & 0x02 == 0 then 1 else 0) + (if w.value & 0x01 != 0 then 1 else 0))
    else if w.port == data then
      if r.expected > 0 then r.(expected := r.expected - 1) else r.(imr := w.value)
    else r
  }

  /** The register after a run of writes, oldest first. */
  function Replay(r: MaskRegister, log: seq<Write>, command: Port, data: Port): MaskRegister
    decreases |log|
  {
    if log == [] then r else Replay(Receive(r, log[0], command, data), log[1..], command, data)
  }

  /** Replaying two runs one after the other is replaying their concatenation. */
  lemma {:induction false} ReplayAppend(r: MaskRegister, a: seq<Write>, b: seq<Write>, command: Port, data: Port)
    ensures Replay(r, a + b, command, data) == Replay(Replay(r, a, command, data), b, command, data)
    decreases |a|
  {
    if a != [] {
      assert (a + b)[0] == a[0];
      assert (a + b)[1..] == a[1..] + b;
      ReplayAppend(Receive(r, a[0], command, data), a[1..], b, command, data);
    } else {
      assert a + b == b;
    }
  }

  /** Writes to other ports leave a controller's register as it was. */
  lemma {:induction false} ReplayElsewhere(r: MaskRegister, log: seq<Write>, command: Port, data: Port)
    requires forall k :: 0 <= k < |log| ==> log[k].port != command && log[k].port != data
    ensures Replay(r, log, command, data) == r
    decreases |log|
  {
    if log != [] {
      ReplayElsewhere(r, log[1..], command, data);
    }
  }

  /** The four words `initializePICs` sends a controller leave its IMR cleared and no word expected. */
  lemma InitClearsMask(r: MaskRegister, command: Port, data: Port, icw2: bv8, icw3: bv8)
    requires command != data
    ensures Replay(r, [Write(command, Icw1), Write(data, icw2), Write(data, icw3), Write(data, Icw4X86Mode)], command, data)
      == MaskRegister(0, 0)
  {
    var log := [Write(command, Icw1), Write(data, icw2), Write(data, icw3), Write(data, Icw4X86Mode)];
    assert Receive(r, log[0], command, data) == MaskRegister(0, 3);
    assert Replay(r, log, command, data) == Replay(MaskRegister(0, 3), log[1..], command, data);
    assert Replay(MaskRegister(0, 3), log[1..], command, data) == Replay(MaskRegister(0, 2), log[2..], command, data);
    assert Replay(MaskRegister(0, 2), log[2..], command, data) == Replay(MaskRegister(0, 1), log[3..], command, data);
    assert Replay(MaskRegister(0, 1), log[3..], command, data) == Replay(MaskRegister(0, 0), log[4..], command, data);
  }

  /** Each controller's register after the eight initialization words: IMR cleared, ready for OCW1. */
  lemma InitWritesClearMasks(r1: MaskRegister, r2: MaskRegister, pic1Offset: bv8, pic2Offset: bv8, pic2Irq: bv8, masterIcw3: bv8)
    ensures Replay(r1, InitWrites(pic1Offset, pic2Offset, pic2Irq, masterIcw3), Pic1Command, Pic1Data) == MaskRegister(0, 0)
    ensures Replay(r2, InitWrites(pic1Offset, pic2Offset, pic2Irq, masterIcw3), Pic2Command, Pic2Data) == MaskRegister(0, 0)
  {
    var first := [Write(Pic1Command, Icw1), Write(Pic1Data, VectorBase(pic1Offset)), Write(Pic1Data, masterIcw3), Write(Pic1Data, Icw4X86Mode)];
    var second := [Write(Pic2Command, Icw1), Write(Pic2Data, VectorBase(pic2Offset)), Write(Pic2Data, pic2Irq), Write(Pic2Data, Icw4X86Mode)];
    assert InitWrites(pic1Offset, pic2Offset, pic2Irq, masterIcw3) == first + second;
    ReplayAppend(r1, first, second, Pic1Command, Pic1Data);
    InitClearsMask(r1, Pic1Command, Pic1Data, VectorBase(pic1Offset), masterIcw3);
    ReplayElsewhere(MaskRegister(0, 0), second, Pic1Command, Pic1Data);
    ReplayAppend(r2, first, second, Pic2Command, Pic2Data);
    ReplayElsewhere(r2, first, Pic2Command, Pic2Data);
    assert Replay(r2, first, Pic2Command, Pic2Data) == r2;
    InitClearsMask(r2, Pic2Command, Pic2Data, VectorBase(pic2Offset), pic2Irq);
    assert Replay(r2, second, Pic2Command, Pic2Data) == MaskRegister(0, 0);
  }

  /**
   * `remap` as written, on the 8259A: PIC1 gets no OCW1 after its
   * initialization, so its IMR stays cleared (IRQs 0-7 all unmasked)
   * whatever mask it held, and PIC2's IMR ends with PIC2's saved mask.
   */
  lemma RemapAsWrittenMasks(r1: MaskRegister, r2: MaskRegister, pic1Offset: bv8, pic2Offset: bv8, pic2Irq: bv8, pic1Mask: bv8, pic2Mask: bv8)
    ensures var log := InitWrites(pic1Offset, pic2Offset, pic2Irq, CascadeMaskAsWritten(pic2Irq))
      + [Write(Pic2Data, pic1Mask), Write(Pic2Data, pic2Mask)];
      && Replay(r1, log, Pic1Command, Pic1Data).imr == 0
      && Replay(r2, log, Pic2Command, Pic2Data).imr == pic2Mask
  {
    var init := InitWrites(pic1Offset, pic2Offset, pic2Irq, CascadeMaskAsWritten(pic2Irq));
    var tail := [Write(Pic2Data, pic1Mask), Write(Pic2Data, pic2Mask)];
    InitWritesClearMasks(r1, r2, pic1Offset, pic2Offset, pic2Irq, CascadeMaskAsWritten(pic2Irq));
    ReplayAppend(r1, init, tail, Pic1Command, Pic1Data);
    ReplayElsewhere(MaskRegister(0, 0), tail, Pic1Command, Pic1Data);
    assert Replay(r1, init + tail, Pic1Command, Pic1Data) == MaskRegister(0, 0);
    ReplayAppend(r2, init, tail, Pic2Command, Pic2Data);
    assert Replay(MaskRegister(0, 0), tail, Pic2Command, Pic2Data)
        == Replay(MaskRegister(pic1Mask, 0), tail[1..], Pic2Command, Pic2Data)
        == Replay(MaskRegister(pic2Mask, 0), tail[2..], Pic2Command, Pic2Data);
  }

  /** `remap` as intended: each controller's IMR ends with its own saved mask. */
  lemma RemapCorrectedMasks(r1: MaskRegister, r2: MaskRegister, pic1Offset: bv8, pic2Offset: bv8, pic2Irq: bv8, pic1Mask: bv8, pic2Mask: bv8)
    ensures var log := InitWrites(pic1Offset, pic2Offset, pic2Irq, CascadeMask(pic2Irq))
      + [Write(Pic1Data, pic1Mask), Write(Pic2Data, pic2Mask)];
      && Replay(r1, log, Pic1Command, Pic1Data).imr == pic1Mask
      && Replay(r2, log, Pic2Command, Pic2Data).imr == pic2Mask
  {
    var init := InitWrites(pic1Offset, pic2Offset, pic2Irq, CascadeMask(pic2Irq));
    var tail := [Write(Pic1Data, pic1Mask), Write(Pic2Data, pic2Mask)];
    InitWritesClearMasks(r1, r2, pic1Offset, pic2Offset, pic2Irq, CascadeMask(pic2Irq));
    ReplayAppend(r1, init, tail, Pic1Command, Pic1Data);
    assert Replay(MaskRegister(0, 0), tail, Pic1Command, Pic1Data)
        == Replay(MaskRegister(pic1Mask, 0), tail[1..], Pic1Command, Pic1Data)
        == Replay(MaskRegister(pic1Mask, 0), tail[2..], Pic1Command, Pic1Data);
    ReplayAppend(r2, init, tail, Pic2Command, Pic2Data);
    assert Replay(MaskRegister(0, 0), tail, Pic2Command, Pic2Data)
        == Replay(MaskRegister(0, 0), tail[1..], Pic2Command, Pic2Data)
        == Replay(MaskRegister(pic2Mask, 0), tail[2..], Pic2Command, Pic2Data);
  }

  /** `x86::PIC`, which has no state of its own: every effect is on the ports. */
  class Controllers {
    const ports: Ports

    constructor (ports: Ports)
      ensures this.ports == ports
    {
      this.ports := ports;
    }

    /** Send ICW1-ICW4 to both controllers, with `masterIcw3` as PIC1's ICW3. */
    method SendInitialization(pic1Offset: bv8, pic2Offset: bv8, pic2Irq: bv8, masterIcw3: bv8)
      modifies ports
      ensures ports.log == old(ports.log) + InitWrites(pic1Offset, pic2Offset, pic2Irq, masterIcw3)
      ensures ports.values == old(ports.values)[Pic1Command := Icw1][Pic1Data := Icw4X86Mode][Pic2Command := Icw1][Pic2Data := Icw4X86Mode]
    {
      SendWords(Pic1Command, Pic1Data, VectorBase(pic1Offset), masterIcw3);
      SendWords(Pic2Command, Pic2Data, VectorBase(pic2Offset), pic2Irq);
      assert InitWrites(pic1Offset, pic2Offset, pic2Irq, masterIcw3) ==
        [Write(Pic1Command, Icw1), Write(Pic1Data, VectorBase(pic1Offset)), Write(Pic1Data, masterIcw3), Write(Pic1Data, Icw4X86Mode)]
        + [Write(Pic2Command, Icw1), Write(Pic2Data, VectorBase(pic2Offset)), Write(Pic2Data, pic2Irq), Write(Pic2Data, Icw4X86Mode)];
    }

    /** ICW1 on one controller's command port, then ICW2, ICW3 and ICW4 on its data port. */
    method SendWords(command: Port, data: Port, icw2: bv8, icw3: bv8)
      modifies ports
      ensures ports.log == old(ports.log) + [Write(command, Icw1), Write(data, icw2), Write(data, icw3), Write(data, Icw4X86Mode)]
      ensures ports.values == old(ports.values)[command := Icw1][data := Icw4X86Mode]
    {
      ports.Out(command, Icw1);
      ports.Out(data, icw2);
      ports.Out(data, icw3);
      ports.Out(data, Icw4X86Mode);
    }

    /** `initializePICs` as written. */
    method InitializePics(pic1Offset: bv8, pic2Offset: bv8, pic2Irq: bv8)
      modifies ports
      ensures ports.log == old(ports.log) + InitWrites(pic1Offset, pic2Offset, pic2Irq, CascadeMaskAsWritten(pic2Irq))
      ensures ports.values == old(ports.values)[Pic1Command := Icw1][Pic1Data := Icw4X86Mode][Pic2Command := Icw1][Pic2Data := Icw4X86Mode]
    {
      var mask := BuildCascadeMask(pic2Irq);
      SendInitialization(pic1Offset, pic2Offset, pic2Irq, mask);
    }

    /** `initializePICs` with the 8259A's master ICW3. */
    method InitializePicsCorrected(pic1Offset: bv8, pic2Offset: bv8, pic2Irq: bv8)
      modifies ports
      ensures ports.log == old(ports.log) + InitWrites(pic1Offset, pic2Offset, pic2Irq, CascadeMask(pic2Irq))
      ensures ports.values == old(ports.values)[Pic1Command := Icw1][Pic1Data := Icw4X86Mode][Pic2Command := Icw1][Pic2Data := Icw4X86Mode]
    {
      var mask := CascadeMask(pic2Irq);
      SendInitialization(pic1Offset, pic2Offset, pic2Irq, mask);
    }

    /** `initialize`: program both controllers, then mask every IRQ. */
    method Initialize(pic1Offset: bv8, pic2Offset: bv8, pic2Irq: bv8)
      modifies ports
      ensures ports.log == old(ports.log) + InitWrites(pic1Offset, pic2Offset, pic2Irq, CascadeMaskAsWritten(pic2Irq))
        + [Write(Pic1Data, 0xFF), Write(Pic2Data, 0xFF)]
      ensures ports.values == old(ports.values)[Pic1Command := Icw1][Pic2Command := Icw1][Pic1Data := 0xFF][Pic2Data := 0xFF]
    {
      InitializePics(pic1Offset, pic2Offset, pic2Irq);
      ports.Out(Pic1Data, 0xFF);
      ports.Out(Pic2Data, 0xFF);
    }

    /** `remap` as written: both saved masks are sent to PIC2's data port. */
    method Remap(pic1Offset: bv8, pic2Offset: bv8, pic2Irq: bv8)
      requires Pic1Data in ports.values && Pic2Data in ports.values
      modifies ports
      ensures ports.log == old(ports.log) + InitWrites(pic1Offset, pic2Offset, pic2Irq, CascadeMaskAsWritten(pic2Irq))
        + [Write(Pic2Data, old(ports.values[Pic1Data])), Write(Pic2Data, old(ports.values[Pic2Data]))]
      ensures ports.values == old(ports.values)[Pic1Command := Icw1][Pic2Command := Icw1][Pic1Data := Icw4X86Mode]
    {
      var pic1Mask := ports.In(Pic1Data);
      var pic2Mask := ports.In(Pic2Data);
      ghost var saved := ports.values;
      InitializePics(pic1Offset, pic2Offset, pic2Irq);
      ports.Out(Pic2Data, pic1Mask);
      ports.Out(Pic2Data, pic2Mask);
      SameUpdate(saved, Pic2Data);
    }

    /** `remap` as intended: each controller gets its own mask back. */
    method RemapCorrected(pic1Offset: bv8, pic2Offset: bv8, pic2Irq: bv8)
      requires Pic1Data in ports.values && Pic2Data in ports.values
      modifies ports
      ensures ports.log == old(ports.log) + InitWrites(pic1Offset, pic2Offset, pic2Irq, CascadeMask(pic2Irq))
        + [Write(Pic1Data, old(ports.values[Pic1Data])), Write(Pic2Data, old(ports.values[Pic2Data]))]
      ensures ports.values == old(ports.values)[Pic1Command := Icw1][Pic2Command := Icw1]
    {
      var pic1Mask := ports.In(Pic1Data);
      var pic2Mask := ports.In(Pic2Data);
      ghost var saved := ports.values;
      InitializePicsCorrected(pic1Offset, pic2Offset, pic2Irq);
      ports.Out(Pic1Data, pic1Mask);
      ports.Out(Pic2Data, pic2Mask);
      SameUpdate(saved, Pic1Data);
      SameUpdate(saved, Pic2Data);
    }

    /** `endOfInterrupt`: OCW2 non-specific EOI to PIC2 (for its IRQs) and then to PIC1. */
    method EndOfInterrupt(irq: bv8)
      modifies ports
      ensures ports.log == old(ports.log) + EoiWrites(irq)
      ensures ports.values == if irq >= 8 then old(ports.values)[Pic2Command := NonSpecificEoi][Pic1Command := NonSpecificEoi]
        else old(ports.values)[Pic1Command := NonSpecificEoi]
    {
      if irq >= 8 {
        ports.Out(Pic2Command, NonSpecificEoi);
      }
      ports.Out(Pic1Command, NonSpecificEoi);
    }

    /**
     * `enableIRQ`: clear the IRQ's bit in its controller's mask register.
     * The source shifts an `int` 1 by the line number, which is undefined
     * from 31 on, hence the bound; lines 8 to 30 fall outside the byte and
     * leave the mask as it was.
     */
    method EnableIrq(irq: bv8)
      requires irq < 39 && PortForIrq(irq) in ports.values
      modifies ports
      ensures var port := PortForIrq(irq);
        && ports.values == old(ports.values)[port := ClearBit(old(ports.values[port]), LineOf(irq))]
        && ports.log == old(ports.log) + [Write(port, ClearBit(old(ports.values[port]), LineOf(irq)))]
    {
      var port := PortForIrq(irq);
      var line := LineOf(irq);
      var mask := ports.In(port);
      ports.Out(port, ClearBit(mask, line));
    }

    /** `disableIRQ`: set the IRQ's bit in its controller's mask register. */
    method DisableIrq(irq: bv8)
      requires irq < 39 && PortForIrq(irq) in ports.values
      modifies ports
      ensures var port := PortForIrq(irq);
        && ports.values == old(ports.values)[port := SetBit(old(ports.values[port]), LineOf(irq))]
        && ports.log == old(ports.log) + [Write(port, SetBit(old(ports.values[port]), LineOf(irq)))]
    {
      var port := PortForIrq(irq);
      var line := LineOf(irq);
      var mask := ports.In(port);
      ports.Out(port, SetBit(mask, line));
    }

    /** `enableInterrupt`. */
    method EnableInterrupt(irq: bv8, enabled: bool)
      requires irq < 39 && PortForIrq(irq) in ports.values
      modifies ports
      ensures var port := PortForIrq(irq);
        var mask := if enabled then ClearBit(old(ports.values[port]), LineOf(irq)) else SetBit(old(ports.values[port]), LineOf(irq));
        && ports.values == old(ports.values)[port := mask]
        && ports.log == old(ports.log) + [Write(port, mask)]
    {
      if enabled {
        EnableIrq(irq);
      } else {
        DisableIrq(irq);
      }
    }
  }

  /** Writing back the byte a port already holds leaves the port space as it was. */
  lemma SameUpdate(values: map<Port, bv8>, port: Port)
    requires port in values
    ensures values[port := values[port]] == values
  {
    var u := values[port := values[port]];
    assert u.Keys == values.Keys;
    assert forall k | k in u :: u[k] == values[k];
  }

  /**
   * With PIC1 masked to 0xFB (only the cascade input open) and PIC2 to
   * 0xFF, replaying the writes of `remap` as written on the two 8259As
   * leaves PIC1's IMR at 0 (every IRQ 0-7 open) and PIC2's at 0xFF, while
   * the corrected version restores 0xFB and 0xFF.
   */
  method RemapLosesPic1Mask() returns (asWritten: bv8, corrected: bv8)
    ensures asWritten == 0 && corrected == 0xFB
  {
    var initial := map[Pic1Data := 0xFB, Pic2Data := 0xFF];
    var p := new Ports(initial);
    var pic := new Controllers(p);
    pic.Remap(0x20, 0x28, 2);
    assert p.log == InitWrites(0x20, 0x28, 2, CascadeMaskAsWritten(2)) + [Write(Pic2Data, 0xFB), Write(Pic2Data, 0xFF)];
    RemapAsWrittenMasks(MaskRegister(0xFB, 0), MaskRegister(0xFF, 0), 0x20, 0x28, 2, 0xFB, 0xFF);
    asWritten := Replay(MaskRegister(0xFB, 0), p.log, Pic1Command, Pic1Data).imr;
    var q := new Ports(initial);
    var fixedPic := new Controllers(q);
    fixedPic.RemapCorrected(0x20, 0x28, 2);
    assert q.log == InitWrites(0x20, 0x28, 2, CascadeMask(2)) + [Write(Pic1Data, 0xFB), Write(Pic2Data, 0xFF)];
    RemapCorrectedMasks(MaskRegister(0xFB, 0), MaskRegister(0xFF, 0), 0x20, 0x28, 2, 0xFB, 0xFF);
    corrected := Replay(MaskRegister(0xFB, 0), q.log, Pic1Command, Pic1Data).imr;
  }

  /** Enabling an IRQ below 16 opens exactly its line and keeps every other mask bit. */
  lemma EnableOpensOnlyItsLine(mask: bv8, irq: bv8)
    requires irq < 16
    ensures !BitOf(ClearBit(mask, LineOf(irq)), LineOf(irq))
    ensures forall j: nat :: j < 8 && j != LineOf(irq) ==> (BitOf(ClearBit(mask, LineOf(irq)), j) <==> BitOf(mask, j))
  {
  }

  /** Disabling an IRQ below 16 closes exactly its line; disabling then enabling it restores an open line. */
  lemma DisableThenEnable(mask: bv8, irq: bv8)
    requires irq < 16 && !BitOf(mask, LineOf(irq))
    ensures BitOf(SetBit(mask, LineOf(irq)), LineOf(irq))
    ensures ClearBit(SetBit(mask, LineOf(irq)), LineOf(irq)) == mask
  {
    var line := LineOf(irq);
    var r := ClearBit(SetBit(mask, line), line);
    BitsDetermineCell(r, mask);
  }
}
