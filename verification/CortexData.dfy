/** A cluster of the language cortex. */
module CortexData {

  const LABEL_MAX := 63

  datatype Cluster = Cluster(weights: seq<int>, accum: seq<real>, sampleCount: int, frozen: bool, active: bool, wordLabel: string)

  /** `strncpy(dst, src, 63)` into a zeroed label. */
  function Clip(wordLabel: string): string {
    if |wordLabel| <= LABEL_MAX then wordLabel else wordLabel[..LABEL_MAX]
  }
}
