/** The 64-bit transport envelope of `causal_projection.rs`: two serial
    namespaces told apart by the top bit. Words are natural numbers up to
    `U64_MAX`; the bit operations are written as the arithmetic they perform. */
module CausalProjection {
  import opened Basics

  const DOMAIN_BIT: nat := 0x8000_0000_0000_0000
  const SERIAL_MAX: nat := DOMAIN_BIT - 1

  datatype Domain = HistoricalGap | LiveTail

  datatype OperationId = OperationId(domain: Domain, serial: nat)

  ghost predicate Word(x: nat) { x <= U64_MAX }

  function NewId(domain: Domain, serial: nat): Option<OperationId> {
    if serial <= SERIAL_MAX then Some(OperationId(domain, serial)) else None
  }

  /** `DOMAIN_BIT | x` sets the top bit of a word. */
  function SetTopBit(x: nat): nat {
    if x < DOMAIN_BIT then x + DOMAIN_BIT else x
  }

  function EncodeTransport(id: OperationId): nat {
    match id.domain
    case HistoricalGap => id.serial
    case LiveTail => SetTopBit(id.serial)
  }

  /** The top bit picks the namespace; masking with `SERIAL_MAX` drops it. */
  function DecodeTransport(encoded: nat): OperationId {
    OperationId(if encoded < DOMAIN_BIT then HistoricalGap else LiveTail, encoded % DOMAIN_BIT)
  }

  /** `checked_add(1)` filtered to the 63-bit serial range. */
  function NextSerial(current: nat): Option<nat> {
    if current + 1 <= U64_MAX && current + 1 <= SERIAL_MAX then Some(current + 1) else None
  }

  /** Decoding undoes encoding exactly for the serials `NewId` admits, and
      encoding undoes decoding for every word. */
  lemma TransportRoundTrip(id: OperationId, word: nat)
    requires Word(id.serial) && Word(word)
    ensures DecodeTransport(EncodeTransport(id)) == id <==> NewId(id.domain, id.serial).Some?
    ensures EncodeTransport(DecodeTransport(word)) == word
    ensures NewId(DecodeTransport(word).domain, DecodeTransport(word).serial) == Some(DecodeTransport(word))
  {
  }

  /** Distinct operations never share a transport word. */
  lemma TransportInjective(a: OperationId, b: OperationId)
    requires a.serial <= SERIAL_MAX && b.serial <= SERIAL_MAX
    requires EncodeTransport(a) == EncodeTransport(b)
    ensures a == b
  {
  }
}
