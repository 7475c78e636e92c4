/**
 The VSS tree held in memory. A node's `children` are the entries Child[0..Children] of the
 program's node; the count `Allowed` is the length of `allowedDef`.
 */
module VssTree {
  import opened ByteStrings

  datatype Node = Node(
    name: bytes,
    nodeType: bytes,
    uuid: bytes,
    description: bytes,
    dataType: bytes,
    min: bytes,
    max: bytes,
    unit: bytes,
    allowedDef: seq<bytes>,
    defaultValue: bytes,
    validate: byte,
    children: seq<Node>)

  // "branch"
  const BRANCH: bytes := [0x62, 0x72, 0x61, 0x6E, 0x63, 0x68]
  // "actuator"
  const ACTUATOR: bytes := [0x61, 0x63, 0x74, 0x75, 0x61, 0x74, 0x6F, 0x72]

  function Max(a: int, b: int): int { if a < b then b else a }

  /** Number of nodes. */
  function Size(t: Node): nat {
    1 + ForestSize(t.children)
  }

  function ForestSize(ts: seq<Node>): nat {
    if ts == [] then 0 else Size(ts[0]) + ForestSize(ts[1..])
  }

  /** Number of levels; a leaf has height 1. */
  function Height(t: Node): (h: nat)
    ensures h >= 1
  {
    1 + ForestHeight(t.children)
  }

  function ForestHeight(ts: seq<Node>): nat {
    if ts == [] then 0 else Max(Height(ts[0]), ForestHeight(ts[1..]))
  }
}
