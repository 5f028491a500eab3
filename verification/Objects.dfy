/**
  Manifests, phases and the references that replace inlined manifests.
  A Go string and a Go byte slice are both a sequence of code units here.
*/
module Objects {
  import opened Wrappers

  type Bytes = string

  /** An unstructured Kubernetes object: its identity and everything else. */
  datatype Object = Object(group: string, version: string, kind: string,
                           namespace: string, name: string, body: string)

  /** ObjectSourceRef: which key of which Secret holds a serialized object. */
  datatype Ref = Ref(name: string, namespace: string, key: string)

  datatype PhaseObject = PhaseObject(inline: Option<Object>, ref: Option<Ref>)

  datatype Phase = Phase(name: string, objects: seq<PhaseObject>)

  /** Phase index and object index inside that phase. */
  datatype Pos = Pos(phase: nat, index: nat)

  predicate ValidPos(phases: seq<Phase>, pos: Pos) {
    pos.phase < |phases| && pos.index < |phases[pos.phase].objects|
  }

  function At(phases: seq<Phase>, pos: Pos): PhaseObject
    requires ValidPos(phases, pos)
  {
    phases[pos.phase].objects[pos.index]
  }

  /**
    The library functions the externalization relies on: SHA-256 in base64url for content
    keys, the hexadecimal prefix of SHA-256 for Secret names, gzip and JSON.
  */
  datatype Codec = Codec(contentHash: Bytes -> string, nameDigest: Bytes -> string,
                         gzip: Bytes -> Option<Bytes>, gunzip: Bytes -> Option<Bytes>,
                         marshal: Object -> Option<Bytes>)

  const KEY_LENGTH := 43
  const DIGEST_LENGTH := 16
  const GZIP_MAGIC_0 := 0x1f as char
  const GZIP_MAGIC_1 := 0x8b as char

  predicate HasGzipMagic(data: Bytes) {
    |data| >= 2 && data[0] == GZIP_MAGIC_0 && data[1] == GZIP_MAGIC_1
  }

  /** What the standards promise: section 2.3.1 of RFC 1952 and section 4 of RFC 8259. */
  ghost predicate Sound(c: Codec) {
    && (forall b :: |c.contentHash(b)| == KEY_LENGTH)
    && (forall b :: |c.nameDigest(b)| == DIGEST_LENGTH)
    && (forall b :: c.gzip(b).Some? ==> HasGzipMagic(c.gzip(b).value) && c.gunzip(c.gzip(b).value) == Some(b))
    && (forall o :: c.marshal(o).Some? ==> |c.marshal(o).value| > 0 && c.marshal(o).value[0] == '{')
  }

  /** No two different members of `universe` have the same content hash. */
  ghost predicate CollisionFree(c: Codec, universe: set<Bytes>) {
    forall x, y :: x in universe && y in universe && c.contentHash(x) == c.contentHash(y) ==> x == y
  }
}
