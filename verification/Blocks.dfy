/** Block hashes, headers and the chain they form. */
module Blocks {
  import opened Numbers

  datatype Option<+T> = None | Some(value: T)

  /** The `StorageError` cases the modelled code returns. */
  datatype StorageError = DbError | MissingKey | InvalidColumn | PredecessorLookupError | DecodeError

  datatype Result<+T> = Ok(value: T) | Err(error: StorageError)

  type Bytes32 = s: seq<byte> | |s| == 32 witness seq(32, _ => 0)
  type Bytes4 = s: seq<byte> | |s| == 4 witness seq(4, _ => 0)

  datatype BlockHash = BlockHash(bytes: Bytes32)
  datatype ChainId = ChainId(bytes: Bytes4)

  type Level = i32

  datatype Header = Header(hash: BlockHash, predecessor: BlockHash, level: Level)

  /** A set of headers, indexed by hash, with the block that starts the chain. */
  datatype Chain = Chain(genesis: BlockHash, headers: map<BlockHash, Header>) {

    /** The header is filed under its own hash and its predecessor is known; genesis is its own
        predecessor at level 0 and every other block is one level above its predecessor. */
    ghost predicate Linked(b: BlockHash)
      requires b in headers
    {
      var h := headers[b];
      && h.hash == b
      && h.predecessor in headers
      && headers[h.predecessor].level >= 0
      && (if b == genesis then h.predecessor == genesis && h.level == 0
          else h.level == headers[h.predecessor].level + 1)
    }

    ghost predicate Consistent() {
      && genesis in headers
      && forall b {:trigger Linked(b)} :: b in headers ==> Linked(b)
    }

    ghost function Depth(b: BlockHash): (d: nat)
      requires Consistent() && b in headers
      ensures d == 0 <==> b == genesis
    {
      assert Linked(b);
      headers[b].level
    }

    ghost function Parent(b: BlockHash): (p: BlockHash)
      requires Consistent() && b in headers
      ensures p in headers
      ensures if b == genesis then p == b else p != b && Depth(b) == Depth(p) + 1
    {
      assert Linked(b);
      headers[b].predecessor
    }

    /** The block `distance` steps below `b`, or `None` when that passes genesis. */
    ghost function Ancestor(b: BlockHash, distance: nat): (a: Option<BlockHash>)
      requires Consistent() && b in headers
      ensures a.Some? ==> a.value in headers
      decreases distance
    {
      if distance == 0 then Some(b)
      else if b == genesis then None
      else Ancestor(Parent(b), distance - 1)
    }

    /** An ancestor exists exactly down to genesis, and its depth is what is left. */
    lemma {:induction false} AncestorDepth(b: BlockHash, distance: nat)
      requires Consistent() && b in headers
      ensures Ancestor(b, distance).Some? <==> distance <= Depth(b)
      ensures distance <= Depth(b) ==>
                Depth(Ancestor(b, distance).value) == Depth(b) - distance
      decreases distance
    {
      if distance > 0 && b != genesis {
        AncestorDepth(Parent(b), distance - 1);
      }
    }

    /** Walking `near` steps and then `far` steps is walking `near + far` steps. */
    lemma {:induction false} AncestorCompose(b: BlockHash, near: nat, far: nat)
      requires Consistent() && b in headers
      requires near <= Depth(b)
      ensures Ancestor(b, near).Some?
      ensures Ancestor(b, near + far) == Ancestor(Ancestor(b, near).value, far)
      decreases near
    {
      AncestorDepth(b, near);
      if near > 0 {
        AncestorCompose(Parent(b), near - 1, far);
      }
    }
  }
}
