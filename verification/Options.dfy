/** The configuration of qzmq.go: algorithm codes, suites, modes, rotation limits and their validation. */
module Options {
  import opened Bytes

  // Go's `iota` codes; any other integer is an algorithm the code does not know.
  const X25519 := 0
  const MLKEM768 := 1
  const MLKEM1024 := 2
  const HYBRID_X25519_MLKEM768 := 3
  const HYBRID_X25519_MLKEM1024 := 4

  const ED25519 := 0
  const MLDSA2 := 1
  const MLDSA3 := 2

  const AES256GCM := 0
  const CHACHA20POLY1305 := 1

  const SHA256 := 0
  const SHA384 := 1
  const SHA512 := 2

  const MODE_HYBRID := 0
  const MODE_PQ_ONLY := 1
  const MODE_CLASSICAL := 2

  const BACKEND_AUTO := 0
  const BACKEND_GO := 1

  datatype Suite = Suite(kem: int, sign: int, aead: int, hash: int)

  /** Go's zero value of a suite. */
  const ZERO_SUITE := Suite(X25519, ED25519, AES256GCM, SHA256)

  /** `maxAge` counts nanoseconds and is signed, as `time.Duration` is. */
  datatype Rotation = Rotation(maxMessages: uint64, maxBytes: uint64, maxAge: int)

  datatype Options = Options(backend: int, suite: Suite, mode: int, rotation: Rotation)

  const DEFAULT_MESSAGES: uint64 := 0x1_0000_0000
  const DEFAULT_BYTES: uint64 := 0x100_0000_0000
  const TEN_MINUTES := 600_000_000_000

  /** Post-quantum-only mode refuses the classical algorithms. */
  predicate Acceptable(o: Options) {
    o.mode == MODE_PQ_ONLY ==> o.suite.kem != X25519 && o.suite.sign != ED25519
  }

  function Defaulted(r: Rotation): Rotation {
    Rotation(
      if r.maxMessages == 0 then DEFAULT_MESSAGES else r.maxMessages,
      if r.maxBytes == 0 then DEFAULT_BYTES else r.maxBytes,
      if r.maxAge == 0 then TEN_MINUTES else r.maxAge)
  }

  /** A pointer to options, as `validateOptions` takes one. */
  class OptionsRef {
    var opts: Options

    constructor (o: Options)
      ensures opts == o
    {
      opts := o;
    }
  }

  /** Reports whether the options are usable and fills zero rotation limits in place. A refusal changes nothing;
      an acceptance changes zero limits only, and validating once more changes nothing. */
  method ValidateOptions(p: OptionsRef?) returns (ok: bool)
    modifies p
    ensures ok <==> p != null && Acceptable(old(p.opts))
    ensures ok <==> p != null && !(old(p.opts.mode) == 1
                                   && (old(p.opts.suite.kem) == 0 || old(p.opts.suite.sign) == 0))
    ensures p != null && !ok ==> p.opts == old(p.opts)
    ensures ok ==> p.opts == old(p.opts).(rotation := p.opts.rotation) && Acceptable(p.opts)
    ensures ok ==> p.opts.rotation.maxMessages > 0 && p.opts.rotation.maxBytes > 0 && p.opts.rotation.maxAge != 0
    ensures ok ==> p.opts.rotation == Defaulted(old(p.opts.rotation)) == Defaulted(p.opts.rotation)
    ensures ok ==> var r := old(p.opts.rotation);
                   && p.opts.rotation.maxMessages == (if r.maxMessages == 0 then 4_294_967_296 else r.maxMessages)
                   && p.opts.rotation.maxBytes == (if r.maxBytes == 0 then 1_099_511_627_776 else r.maxBytes)
                   && p.opts.rotation.maxAge == (if r.maxAge == 0 then 10 * 60 * 1_000_000_000 else r.maxAge)
  {
    if p == null { return false; }
    if p.opts.mode == MODE_PQ_ONLY {
      if p.opts.suite.kem == X25519 { return false; }
      if p.opts.suite.sign == ED25519 { return false; }
    }
    if p.opts.rotation.maxMessages == 0 {
      p.opts := p.opts.(rotation := p.opts.rotation.(maxMessages := DEFAULT_MESSAGES));
    }
    if p.opts.rotation.maxBytes == 0 {
      p.opts := p.opts.(rotation := p.opts.rotation.(maxBytes := DEFAULT_BYTES));
    }
    if p.opts.rotation.maxAge == 0 {
      p.opts := p.opts.(rotation := p.opts.rotation.(maxAge := TEN_MINUTES));
    }
    return true;
  }
}
