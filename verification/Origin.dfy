/**
 The other end of a download: the versions a resource goes through, and what an honest
 server may answer to a ranged request (sections 13.1.5 and 14 of RFC 9110).
 */
module Origin {
  import opened ResumeMeta

  datatype Version = Version(content: bytes, etag: bytes, lastModified: bytes)

  /** The validators `validators_from` records for a response carrying this version. */
  function ValidatorsOf(url: bytes, v: Version): Validators {
    Validators(url, v.etag, v.lastModified)
  }

  /** The If-Range value: a strong ETag, else Last-Modified, else none (empty). */
  function IfRange(v: Validators): bytes {
    if v.etag != [] && !([0x57, 0x2F] <= v.etag) then v.etag else v.lastModified
  }

  /** Whether the server may answer 206 from version `w` to a request carrying this If-Range. */
  predicate Answers(url: bytes, ifRange: bytes, w: Version) {
    ifRange == [] || ifRange == IfRange(ValidatorsOf(url, w))
  }
}
