/** The format detector: whether the engine stores images in the
    content-addressable layout introduced by engine version 1.10.0. The two
    version predicates come from a semantic-versioning library (precedence as
    in section 11 of Semantic Versioning 2.0.0) and are left abstract. */
module Format {

  /** The library's `valid(v)` and `lt(a, b)`. */
  datatype Semver = Semver(valid: string -> bool, lt: (string, string) -> bool)

  /** The first engine version with the content-addressable layout. */
  const ContentAddressableSince: string := "1.10.0"

  /** False exactly for a parseable version older than 1.10.0; an unparseable
      version (the engine's later non-semver tags) counts as content-addressable. */
  function UsesContentAddressableFormat(semver: Semver, version: string): (r: bool)
    ensures !semver.valid(version) ==> r
    ensures semver.valid(version) ==> (r <==> !semver.lt(version, ContentAddressableSince))
  {
    !(semver.valid(version) && semver.lt(version, "1.10.0"))
  }

  /** `lt` is a strict order on valid versions, as semver precedence is. */
  ghost predicate StrictOrder(semver: Semver)
  {
    && (forall v :: !semver.lt(v, v))
    && (forall a, b, c :: semver.lt(a, b) && semver.lt(b, c) ==> semver.lt(a, c))
  }

  /** Version 1.10.0 itself uses the new layout, and so does every valid
      version above one that does. */
  lemma ContentAddressableIsUpwardClosed(semver: Semver, older: string, newer: string)
    requires StrictOrder(semver)
    requires semver.valid(older) && semver.valid(newer) && semver.lt(older, newer)
    requires UsesContentAddressableFormat(semver, older)
    ensures UsesContentAddressableFormat(semver, ContentAddressableSince)
    ensures UsesContentAddressableFormat(semver, newer)
  {
  }
}
