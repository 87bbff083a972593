/** The field iterator: it walks a descriptor in a circle and counts required fields. */
module PbIterator {
  import opened PbMessage

  class FieldIter {
    const d: Desc
    var pos: nat
    var requiredIndex: nat

    /** `pos` never points at the end marker, except when there is nothing else. */
    ghost predicate Valid()
      reads this
    {
      && (pos < |d.fields| || (d.fields == [] && pos == 0))
      && requiredIndex == RequiredIndex(d, pos)
    }

    /** pb_field_iter_begin. */
    constructor (d: Desc)
      ensures Valid() && this.d == d && pos == 0
    {
      this.d := d;
      pos := 0;
      requiredIndex := 0;
    }

    /** pb_field_iter_next: false on wrapping around. */
    method Next() returns (more: bool)
      requires Valid()
      modifies this
      ensures Valid()
      ensures more == (old(pos) + 1 < |d.fields|)
      ensures pos == if more then old(pos) + 1 else 0
    {
      if d.fields == [] {
        return false;
      }
      if pos + 1 == |d.fields| {
        pos := 0;
        requiredIndex := 0;
        more := false;
      } else {
        if d.fields[pos].htype.Required? {
          requiredIndex := requiredIndex + 1;
        }
        pos := pos + 1;
        more := true;
      }
    }

    /** pb_field_iter_find: from wherever the iterator stands, once around. With an empty
        descriptor the end marker itself has tag 0. */
    method Find(tag: nat) returns (found: bool)
      requires Valid()
      modifies this
      ensures Valid()
      ensures found <==> (exists i :: 0 <= i < |d.fields| && d.fields[i].tag == tag) || (d.fields == [] && tag == 0)
      ensures found && d.fields != [] ==> d.fields[pos].tag == tag
      ensures !found ==> pos == old(pos)
    {
      var start := pos;
      if d.fields == [] {
        return tag == 0;
      }
      ghost var wrapped := false;
      while true
        invariant Valid() && start < |d.fields|
        invariant !wrapped ==> start <= pos && forall i :: start <= i < pos ==> d.fields[i].tag != tag
        invariant wrapped ==> pos < start && forall i :: (start <= i < |d.fields| || 0 <= i < pos) ==>
            d.fields[i].tag != tag
        decreases if wrapped then start - pos else start + |d.fields| - pos
      {
        if d.fields[pos].tag == tag {
          return true;
        }
        var more := Next();
        wrapped := wrapped || !more;
        if pos == start {
          return false;
        }
      }
    }
  }

  /** With distinct tags the field found does not depend on where the iterator stood. */
  lemma {:induction false} FoundIsFirst(d: Desc, pos: nat, tag: nat)
    requires WFDesc(d) && pos < |d.fields| && d.fields[pos].tag == tag
    ensures FindFrom(d, tag, 0) == pos
  {
    hide WFField;
  }
}
