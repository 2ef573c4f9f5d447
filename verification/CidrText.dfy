/** CIDR strings as the coordinator stores and compares them. */
module CidrText {
  import opened Bits
  import opened Cidr
  import opened Options

  /** A CIDR string: the canonical text of a network block, another text that parses to
      one, or a text that does not parse. Texts are compared as strings. */
  datatype Text = Canon(block: Block) | Alias(spelling: string, block: Block) | Junk(spelling: string)

  function Parse(t: Text): (r: Option<Block>)
    ensures r.Some? ==> IsNetwork(r.value)
  {
    match t
    case Canon(b) => if IsNetwork(b) then Some(b) else None
    case Alias(_, b) => if IsNetwork(b) then Some(b) else None
    case Junk(_) => None
  }

  function DefaultRoute(f: Family): (r: Block)
    ensures IsNetwork(r)
  {
    FloorBelow(0, Width(f), Width(f));
    Block(f, 0, 0)
  }

  /** `"0.0.0.0/0"` or `"::/0"`, as text. */
  predicate IsDefaultRoute(t: Text) {
    t == Canon(DefaultRoute(V4)) || t == Canon(DefaultRoute(V6))
  }

  predicate TextWithin(inner: Text, outer: Text) {
    Parse(inner).Some? && Parse(outer).Some? && Within(Parse(inner).value, Parse(outer).value)
  }

  /** The two texts name blocks that share an address. */
  ghost predicate TextsMeet(x: Text, y: Text) {
    Parse(x).Some? && Parse(y).Some? && Meet(Parse(x).value, Parse(y).value)
  }
}
