/** The record every collector and analyzer produces and consumes. */
module Collectors {

  /** One piece of evidence below a case directory: where it is, who
      produced it and when, its size and digest, and free-form metadata. */
  datatype Artifact = Artifact(
    relativePath: string,
    collector: string,
    collectedAt: string,
    sizeBytes: int,
    sha256: string,
    metadata: map<string, string>)

  /** A digest and a size, as the evidence store reports them for a file. */
  datatype Digest = Digest(sha256: string, size: int)
}
