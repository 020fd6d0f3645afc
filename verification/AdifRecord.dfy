/** QSO records: an ordered list of fields, read and updated by name. */
module AdifRecord {
  import opened GoStrings
  import opened AdifSyntax
  import opened Sequences

  // ---------- records as values ----------

  /** Position of the first field called `name`, or the number of fields. */
  function Find(fields: seq<Field>, name: string): (i: nat)
    ensures i <= |fields|
    ensures forall k :: 0 <= k < i ==> fields[k].name != name
    ensures i < |fields| ==> fields[i].name == name
  {
    if fields == [] || fields[0].name == name then 0 else 1 + Find(fields[1..], name)
  }

  lemma {:induction false} FindUnique(fields: seq<Field>, name: string, i: nat)
    requires i <= |fields|
    requires forall k :: 0 <= k < i ==> fields[k].name != name
    requires i < |fields| ==> fields[i].name == name
    ensures Find(fields, name) == i
  {
    if i > 0 {
      FindUnique(fields[1..], name, i - 1);
    }
  }

  /** The value of the first field called `name`; empty when there is none. */
  function ValueOf(fields: seq<Field>, name: string): string {
    var i := Find(fields, name);
    if i < |fields| then fields[i].value else ""
  }

  /** The fields with the first one called `name` given a new value, or such a field added at the end. */
  function WithValue(fields: seq<Field>, name: string, value: string): seq<Field> {
    var i := Find(fields, name);
    if i < |fields| then fields[i := fields[i].(value := value)]
    else fields + [Field(name, value, "")]
  }

  /** Setting changes the value of the first such field where it stands, and keeps its type. */
  lemma WithValueInPlace(a: seq<Field>, f: Field, b: seq<Field>, name: string, value: string)
    requires f.name == name && forall i :: 0 <= i < |a| ==> a[i].name != name
    ensures WithValue(a + [f] + b, name, value) == a + [Field(name, value, f.dataType)] + b
  {
    FindUnique(a + [f] + b, name, |a|);
  }

  lemma WithValueAtEnd(fields: seq<Field>, name: string, value: string)
    requires forall i :: 0 <= i < |fields| ==> fields[i].name != name
    ensures WithValue(fields, name, value) == fields + [Field(name, value, "")]
  {
    FindUnique(fields, name, |fields|);
  }

  /** The fields called `name`, in order. */
  function Named(fields: seq<Field>, name: string): seq<Field> {
    if fields == [] then []
    else IfNamed(fields[0], name) + Named(fields[1..], name)
  }

  function IfNamed(f: Field, name: string): seq<Field> {
    if f.name == name then [f] else []
  }

  /** The fields not called `name`, in order. */
  function Without(fields: seq<Field>, name: string): seq<Field> {
    if fields == [] then []
    else IfOther(fields[0], name) + Without(fields[1..], name)
  }

  function IfOther(f: Field, name: string): seq<Field> {
    if f.name == name then [] else [f]
  }

  lemma {:induction false} WithoutAppend(a: seq<Field>, b: seq<Field>, name: string)
    ensures Without(a + b, name) == Without(a, name) + Without(b, name)
  {
    if a == [] {
      assert a + b == b;
    } else {
      WithoutAppend(a[1..], b, name);
      Uncons(a, b);
      Associative(IfOther(a[0], name), Without(a[1..], name), Without(b, name));
    }
  }

  /** The filter over one more field. */
  lemma WithoutStep(fields: seq<Field>, i: nat, name: string)
    requires i < |fields|
    ensures Without(fields[..i + 1], name) == Without(fields[..i], name) + IfOther(fields[i], name)
  {
    WithoutAppend(fields[..i], [fields[i]], name);
    assert fields[..i + 1] == fields[..i] + [fields[i]];
  }

  lemma {:induction false} NamedAppend(a: seq<Field>, b: seq<Field>, name: string)
    ensures Named(a + b, name) == Named(a, name) + Named(b, name)
  {
    if a == [] {
      assert a + b == b;
    } else {
      NamedAppend(a[1..], b, name);
      Uncons(a, b);
      Associative(IfNamed(a[0], name), Named(a[1..], name), Named(b, name));
    }
  }

  lemma NamedCons(f: Field, rest: seq<Field>, name: string)
    ensures Named([f] + rest, name) == IfNamed(f, name) + Named(rest, name)
  {
    assert ([f] + rest)[1..] == rest;
  }

  // ---------- records as objects ----------

  /** The Go slice behind Fields: the first `len` elements of a backing array. */
  class Record {
    var buf: array<Field>
    var len: nat

    ghost predicate Valid()
      reads this
    {
      len <= buf.Length
    }

    ghost function Fields(): seq<Field>
      reads this, buf
      requires Valid()
    {
      buf[..len]
    }

    constructor (fields: seq<Field>)
      ensures Valid() && fresh(buf) && Fields() == fields
    {
      buf := new Field[|fields|](i requires 0 <= i < |fields| => fields[i]);
      len := |fields|;
    }

    method IndexOf(name: string) returns (i: nat)
      requires Valid()
      ensures i == Find(Fields(), name)
    {
      i := 0;
      while i < len
        invariant i <= len
        invariant forall k :: 0 <= k < i ==> buf[k].name != name
      {
        if buf[i].name == name {
          break;
        }
        i := i + 1;
      }
      FindUnique(Fields(), name, i);
    }

    method Get(name: string) returns (value: string)
      requires Valid()
      ensures value == ValueOf(Fields(), ToUpper(name))
    {
      var i := IndexOf(ToUpper(name));
      value := if i < len then buf[i].value else "";
    }

    method Has(name: string) returns (found: bool)
      requires Valid()
      ensures found <==> exists f :: f in Fields() && f.name == ToUpper(name)
    {
      var i := IndexOf(ToUpper(name));
      found := i < len;
      if found {
        assert Fields()[i] in Fields();
      }
    }

    method Set(name: string, value: string)
      requires Valid()
      modifies this, buf
      ensures Valid() && (buf == old(buf) || fresh(buf))
      ensures Fields() == WithValue(old(Fields()), ToUpper(name), value)
    {
      var i := IndexOf(ToUpper(name));
      if i < len {
        buf[i] := buf[i].(value := value);
      } else {
        Append(Field(ToUpper(name), value, ""));
      }
    }

    /** Go's append: in place while the backing array has room, else on a larger copy. */
    method Append(f: Field)
      requires Valid()
      modifies this, buf
      ensures Valid() && (buf == old(buf) || fresh(buf))
      ensures Fields() == old(Fields()) + [f]
    {
      if len == buf.Length {
        var was := buf;
        var bigger := new Field[2 * len + 1](i => f);
        forall i | 0 <= i < len {
          bigger[i] := was[i];
        }
        buf := bigger;
        assert buf[..len] == old(Fields());
      }
      buf[len] := f;
      len := len + 1;
    }

    /** Removes every field called `name` by compacting the backing array in place. */
    method Delete(name: string) returns (removed: nat)
      requires Valid()
      modifies this, buf
      ensures Valid() && buf == old(buf)
      ensures Fields() == Without(old(Fields()), ToUpper(name))
      ensures removed == |old(Fields())| - |Fields()|
    {
      var upper, out := ToUpper(name), 0;
      removed := 0;
      ghost var was := Fields();
      for i := 0 to len
        invariant buf == old(buf) && len == old(len) == |was|
        invariant out + removed == i
        invariant buf[..out] == Without(was[..i], upper)
        invariant forall k :: i <= k < len ==> buf[k] == was[k]
      {
        var f := buf[i];
        WithoutStep(was, i, upper);
        if f.name == upper {
          removed := removed + 1;
        } else {
          ghost var kept := buf[..out];
          buf[out] := f;
          out := out + 1;
          assert buf[..out] == kept + [f];
        }
      }
      assert was[..len] == was;
      len := out;
    }

    method Clone() returns (copy: Record)
      requires Valid()
      ensures fresh(copy) && fresh(copy.buf) && copy.Valid()
      ensures copy.Fields() == Fields()
    {
      copy := new Record(buf[..len]);
    }
  }
}
