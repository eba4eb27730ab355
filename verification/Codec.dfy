/** The values that travel from L1 to the Fuel node, and the codecs between them.

The codecs belong to other libraries, so they are parameters: any partial functions. Results that need a law
of a codec name that law among their hypotheses. */
module Codec {
  import opened Wrappers

  /** An L1 block: its number and everything else. */
  datatype L1Block = L1Block(number: nat, contents: Bytes)

  type Blob = Bytes

  /** The header a blob carries: which bundle it belongs to, at which place, and whether it is the last. */
  datatype Header = Header(bundleId: u32, idx: u32, isLast: bool)

  /** A compressed Fuel block. `registrations` are the registry keys it (re)assigns. */
  datatype CompressedBlock = CompressedBlock(height: u32, registrations: map<nat, nat>, payload: Bytes)

  datatype Decoders = Decoders(
    readHeader: Blob -> Option<Header>,
    decodeBundle: seq<Blob> -> Option<seq<Bytes>>,
    decodeBlock: Bytes -> Option<CompressedBlock>)
}
