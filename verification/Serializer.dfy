/** Two-pass serialization of an object into a tagged protocol. */
module Serializer {
  import opened Varint
  import opened Wire
  import opened Calls
  import Counter
  import Lockstep
  import Writer

  /** Serializes an object whose content is `body`. Its bonded members and array segments are
      whatever `style` says. A writer that was idle is idle again afterwards, so that the next
      object starts its own first pass. */
  method TwoPassSerialize(style: Style, body: Body, w: Writer.ProtocolWriter) returns (ok: bool)
    requires ValidBody(body)
    modifies w, w.firstPassWriter
    ensures old(w.Now()).first == Counter.State([], [])
            && (w.protocol == CompactV2 ==> |EncodeBody(CompactV2, body)| < U32)
            ==> ok && w.Now() == Writer.Emit(old(w.Now()), EncodeValue(w.protocol, Struct(body)))
  {
    hide ValidBody, EncodeBody, EncodeValue, CallsOfStruct;
    var calls := CallsOfStruct(style, body);
    ghost var before := w.Now();
    ghost var step := Writer.Steps(w.protocol);
    assert step(before, BondedBegin(calls)) == Writer.Step(w.protocol, before, BondedBegin(calls));
    RunCons(step, before, BondedBegin(calls), calls);
    if before.first == Counter.State([], []) && (w.protocol == CompactV2 ==> |EncodeBody(CompactV2, body)| < U32) {
      Lockstep.TwoPasses(w.protocol, style, body, before);
    }
    ok := w.FirstPass(calls);
    if ok {
      ok := w.PerformAll(calls);
    }
  }
}
