/** Single-byte RDS field encodings that every encoder of the system computes
    the same way. */
module Rds {
  import opened Bytes

  /** Traffic Program in bit 1, Traffic Announcement in bit 0. */
  function TpTaByte(tp: bool, ta: bool): (r: byte)
    ensures r < 4
    ensures (r & 0x02 != 0) <==> tp
    ensures (r & 0x01 != 0) <==> ta
  {
    (if tp then 0x02 else 0x00) | (if ta then 0x01 else 0x00)
  }

  /** Music is 1, speech is 0. */
  function MsByte(ms: bool): (r: byte)
    ensures r < 2 && (r == 1 <==> ms)
  {
    if ms then 1 else 0
  }

  /** Decoder Information: stereo in bit 0, artificial head in bit 1,
      compressed in bit 2, dynamic PTY in bit 3. */
  function DiFlags(stereo: bool, artificialHead: bool, compressed: bool, dynamicPty: bool): (r: byte)
    ensures r < 16
    ensures (r & 0x01 != 0) <==> stereo
    ensures (r & 0x02 != 0) <==> artificialHead
    ensures (r & 0x04 != 0) <==> compressed
    ensures (r & 0x08 != 0) <==> dynamicPty
  {
    (if stereo then 0x01 else 0x00)
    | (if artificialHead then 0x02 else 0x00)
    | (if compressed then 0x04 else 0x00)
    | (if dynamicPty then 0x08 else 0x00)
  }

  /** Distinct flag settings give distinct DI bytes. */
  lemma DiFlagsInjective(a0: bool, a1: bool, a2: bool, a3: bool, b0: bool, b1: bool, b2: bool, b3: bool)
    requires DiFlags(a0, a1, a2, a3) == DiFlags(b0, b1, b2, b3)
    ensures a0 == b0 && a1 == b1 && a2 == b2 && a3 == b3
  {
  }
}
