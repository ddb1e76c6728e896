/**
 * The in-flight record and the session operations TagS3Object uses on it:
 * removing and putting attributes, penalizing, and transferring it to a
 * relationship.
 */
module FlowFiles {
  import opened Attributes

  /** The two outputs of the processor. */
  datatype Relationship = Success | Failure

  class FlowFile {
    var attributes: AttributeMap
    /** Set once the session has penalized the record. */
    var penalized: bool
    /** Every transfer of the record, in order. */
    var transfers: seq<Relationship>

    constructor (attributes: AttributeMap)
      ensures this.attributes == attributes && !penalized && transfers == []
    {
      this.attributes := attributes;
      penalized := false;
      transfers := [];
    }

    /** session.removeAllAttributes with a pattern that matches the names starting with `prefix`. */
    method RemoveAllAttributes(prefix: string)
      modifies this
      ensures attributes == WithoutPrefix(old(attributes), prefix)
      ensures penalized == old(penalized) && transfers == old(transfers)
    {
      attributes := map a | a in attributes && !StartsWith(a, prefix) :: attributes[a];
    }

    /** session.putAllAttributes: every entry of `updates` is written over the record's. */
    method PutAllAttributes(updates: AttributeMap)
      modifies this
      ensures attributes.Keys == old(attributes).Keys + updates.Keys
      ensures forall a :: a in updates ==> attributes[a] == updates[a]
      ensures forall a :: a in old(attributes) && a !in updates ==> attributes[a] == old(attributes)[a]
      ensures penalized == old(penalized) && transfers == old(transfers)
    {
      attributes := attributes + updates;
    }

    /** session.penalize. */
    method Penalize()
      modifies this
      ensures penalized
      ensures attributes == old(attributes) && transfers == old(transfers)
    {
      penalized := true;
    }

    /** session.transfer. */
    method Transfer(relationship: Relationship)
      modifies this
      ensures transfers == old(transfers) + [relationship]
      ensures attributes == old(attributes) && penalized == old(penalized)
    {
      transfers := transfers + [relationship];
    }
  }
}
