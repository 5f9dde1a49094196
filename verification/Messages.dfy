/**
 * AMI messages: an ordered list of key/value fields whose keys are matched without regard
 * to case. A message handed from one function to another is its list of fields; the object
 * that `Set` updates in place is the class `Message`.
 */
module Messages {
  import opened Text

  datatype Field = Field(key: string, value: string)

  type Fields = seq<Field>

  // ---------------------------------------------------------------- lookup and update

  /** The index of the first field whose key folds to the same key, or the length. */
  function Find(fs: Fields, key: string): (i: nat)
    ensures i <= |fs|
    ensures forall j :: 0 <= j < i ==> !EqualFold(fs[j].key, key)
    ensures i < |fs| ==> EqualFold(fs[i].key, key)
  {
    if fs == [] || EqualFold(fs[0].key, key) then 0 else 1 + Find(fs[1..], key)
  }

  lemma FindIs(fs: Fields, key: string, i: nat)
    requires i <= |fs|
    requires forall j :: 0 <= j < i ==> !EqualFold(fs[j].key, key)
    requires i < |fs| ==> EqualFold(fs[i].key, key)
    ensures Find(fs, key) == i
  {
  }

  predicate Present(fs: Fields, key: string) {
    Find(fs, key) < |fs|
  }

  function Lookup(fs: Fields, key: string): string {
    var i := Find(fs, key);
    if i < |fs| then fs[i].value else ""
  }

  /** What is read under a key is the value of the first field with that key in any case, or "" without one. */
  lemma LookupExactly(fs: Fields, key: string, value: string)
    ensures Lookup(fs, key) == value <==>
            || (exists i :: 0 <= i < |fs| && EqualFold(fs[i].key, key) && fs[i].value == value &&
                  forall j :: 0 <= j < i ==> !EqualFold(fs[j].key, key))
            || (value == "" && forall i :: 0 <= i < |fs| ==> !EqualFold(fs[i].key, key))
  {
  }

  function Updated(fs: Fields, key: string, value: string): Fields {
    var i := Find(fs, key);
    if i < |fs| then fs[i := fs[i].(value := value)] else fs + [Field(key, value)]
  }

  /** Reading after an update: the written value under that key, and no other key moves. */
  lemma LookupUpdated(fs: Fields, key: string, value: string, other: string)
    ensures Lookup(Updated(fs, key, value), other) ==
            if EqualFold(key, other) then value else Lookup(fs, other)
    ensures Present(Updated(fs, key, value), other) <==> EqualFold(key, other) || Present(fs, other)
  {
    var i, k := Find(fs, key), Find(fs, other);
    var us := Updated(fs, key, value);
    if EqualFold(key, other) {
      FindIs(us, other, i);
    } else if k < |fs| {
      FindIs(us, other, k);
    } else {
      FindIs(us, other, |us|);
    }
  }

  /** No two fields have keys that fold together. */
  ghost predicate DistinctKeys(fs: Fields) {
    forall i, j :: 0 <= i < j < |fs| ==> !EqualFold(fs[i].key, fs[j].key)
  }

  // ---------------------------------------------------------------- wire format

  function Line(f: Field): string {
    f.key + ": " + f.value + "\r\n"
  }

  function Lines(fs: Fields): string {
    if fs == [] then "" else Line(fs[0]) + Lines(fs[1..])
  }

  function Encode(fs: Fields): string {
    Lines(fs) + "\r\n"
  }

  /** The wire format, field by field. */
  lemma EncodeExactly(key: string, value: string, fs: Fields)
    ensures Encode([]) == "\r\n"
    ensures Encode([Field(key, value)] + fs) == key + ": " + value + "\r\n" + Encode(fs)
  {
    var f := Field(key, value);
    assert ([f] + fs)[1..] == fs;
    Assoc(Line(f), Lines(fs), "\r\n");
  }

  lemma {:induction false} LinesSplit(a: Fields, b: Fields)
    ensures Lines(a + b) == Lines(a) + Lines(b)
  {
    if a == [] {
      assert a + b == b;
    } else {
      assert (a + b)[1..] == a[1..] + b;
      LinesSplit(a[1..], b);
    }
  }

  lemma LinesSnoc(a: Fields, f: Field)
    ensures Lines(a + [f]) == Lines(a) + Line(f)
  {
    LinesSplit(a, [f]);
    assert [f][1..] == [];
    assert Line(f) + "" == Line(f);
  }

  // ---------------------------------------------------------------- the mutable message

  class Message {
    var fields: Fields

    constructor (initial: Fields)
      ensures fields == initial
    {
      fields := initial;
    }

    method Get(key: string) returns (value: string)
      ensures value == Lookup(fields, key)
    {
      for i := 0 to |fields|
        invariant forall j :: 0 <= j < i ==> !EqualFold(fields[j].key, key)
      {
        if EqualFold(fields[i].key, key) {
          FindIs(fields, key, i);
          return fields[i].value;
        }
      }
      return "";
    }

    method Has(key: string) returns (found: bool)
      ensures found <==> exists f :: f in fields && EqualFold(f.key, key)
    {
      for i := 0 to |fields|
        invariant forall j :: 0 <= j < i ==> !EqualFold(fields[j].key, key)
      {
        if EqualFold(fields[i].key, key) {
          assert fields[i] in fields;
          return true;
        }
      }
      return false;
    }

    method Set(key: string, value: string)
      modifies this
      ensures fields == Updated(old(fields), key, value)
    {
      for i := 0 to |fields|
        invariant fields == old(fields)
        invariant forall j :: 0 <= j < i ==> !EqualFold(fields[j].key, key)
      {
        if EqualFold(fields[i].key, key) {
          FindIs(fields, key, i);
          fields := fields[i := fields[i].(value := value)];
          return;
        }
      }
      fields := fields + [Field(key, value)];
    }

    /** Sets every consecutive pair; a key without a value at the end is dropped. */
    method With(kv: seq<string>)
      modifies this
      ensures fields == Merged(old(fields), Pairs(kv))
    {
      var i := 0;
      while i + 1 < |kv|
        invariant 0 <= i <= |kv|
        invariant Merged(fields, Pairs(kv[i..])) == Merged(old(fields), Pairs(kv))
        invariant i % 2 == 0
      {
        assert kv[i..][2..] == kv[i + 2..];
        Set(kv[i], kv[i + 1]);
        i := i + 2;
      }
    }

    method EncodeBytes() returns (b: string)
      ensures b == Encode(fields)
    {
      b := "";
      for i := 0 to |fields|
        invariant b == Lines(fields[..i])
      {
        var f := fields[i];
        LinesSnoc(fields[..i], f);
        assert fields[..i] + [f] == fields[..i + 1];
        b := b + (f.key + ": " + f.value + "\r\n");
      }
      assert fields[..|fields|] == fields;
      b := b + "\r\n";
    }
  }

  // ---------------------------------------------------------------- runs of Set

  function Pairs(kv: seq<string>): Fields {
    if |kv| < 2 then [] else [Field(kv[0], kv[1])] + Pairs(kv[2..])
  }

  /** The fields after setting every pair of `writes` in order. */
  function Merged(fs: Fields, writes: Fields): Fields
    decreases |writes|
  {
    if writes == [] then fs else Merged(Updated(fs, writes[0].key, writes[0].value), writes[1..])
  }

  function NewMessage(kv: seq<string>): Fields {
    Merged([], Pairs(kv))
  }

  /** What the history of writes says the value of `key` is: the last one written, or "". */
  function LastWritten(writes: Fields, key: string): string {
    if writes == [] then ""
    else
      var last := writes[|writes| - 1];
      if EqualFold(last.key, key) then last.value else LastWritten(writes[..|writes| - 1], key)
  }

  ghost predicate WrittenBefore(writes: Fields, key: string) {
    exists j :: 0 <= j < |writes| && EqualFold(writes[j].key, key)
  }

  /** The keys in the order and spelling of their first write. */
  ghost function FirstKeys(writes: Fields): seq<string> {
    if writes == [] then []
    else
      var earlier, last := writes[..|writes| - 1], writes[|writes| - 1];
      if WrittenBefore(earlier, last.key) then FirstKeys(earlier) else FirstKeys(earlier) + [last.key]
  }

  lemma {:induction false} MergedSnoc(fs: Fields, writes: Fields, w: Field)
    ensures Merged(fs, writes + [w]) == Updated(Merged(fs, writes), w.key, w.value)
    decreases |writes|
  {
    if writes == [] {
      assert (writes + [w])[1..] == [];
    } else {
      assert (writes + [w])[1..] == writes[1..] + [w];
      MergedSnoc(Updated(fs, writes[0].key, writes[0].value), writes[1..], w);
    }
  }

  lemma {:induction false} WritesLookup(writes: Fields, key: string)
    ensures Present(Merged([], writes), key) <==> WrittenBefore(writes, key)
    ensures Lookup(Merged([], writes), key) == LastWritten(writes, key)
  {
    if writes != [] {
      var earlier, w := writes[..|writes| - 1], writes[|writes| - 1];
      assert writes == earlier + [w];
      WritesLookup(earlier, key);
      MergedSnoc([], earlier, w);
      LookupUpdated(Merged([], earlier), w.key, w.value, key);
      assert WrittenBefore(writes, key) <==> EqualFold(w.key, key) || WrittenBefore(earlier, key) by {
        assert writes[|writes| - 1] == w;
        assert forall j :: 0 <= j < |earlier| ==> earlier[j] == writes[j];
      }
    }
  }

  lemma {:induction false} WritesKeys(writes: Fields)
    ensures var m := Merged([], writes);
            DistinctKeys(m) && |m| == |FirstKeys(writes)| && forall i :: 0 <= i < |m| ==> m[i].key == FirstKeys(writes)[i]
  {
    if writes != [] {
      var earlier, w := writes[..|writes| - 1], writes[|writes| - 1];
      assert writes == earlier + [w];
      WritesKeys(earlier);
      WritesLookup(earlier, w.key);
      MergedSnoc([], earlier, w);
    }
  }

  /**
   * Any sequence of writes to an empty message gives exactly the first-written keys, in the
   * order of their first write and with no two folding together, each with its last value.
   */
  lemma WritesRefineMap(writes: Fields)
    ensures var m, keys := Merged([], writes), FirstKeys(writes);
            && DistinctKeys(m)
            && |m| == |keys|
            && forall i :: 0 <= i < |m| ==> m[i] == Field(keys[i], LastWritten(writes, keys[i]))
    ensures forall key :: Present(Merged([], writes), key) <==> WrittenBefore(writes, key)
    ensures forall key :: Lookup(Merged([], writes), key) == LastWritten(writes, key)
  {
    var m, keys := Merged([], writes), FirstKeys(writes);
    WritesKeys(writes);
    forall key
      ensures Present(m, key) <==> WrittenBefore(writes, key)
      ensures Lookup(m, key) == LastWritten(writes, key)
    {
      WritesLookup(writes, key);
    }
    forall i | 0 <= i < |m| ensures m[i] == Field(keys[i], LastWritten(writes, keys[i])) {
      FindIs(m, keys[i], i);
      WritesLookup(writes, keys[i]);
    }
  }

  /** Building a message from keys that do not fold together keeps them all, as they are. */
  lemma {:induction false} DistinctWrites(writes: Fields)
    requires DistinctKeys(writes)
    ensures Merged([], writes) == writes
  {
    if writes != [] {
      var earlier, w := writes[..|writes| - 1], writes[|writes| - 1];
      assert writes == earlier + [w];
      DistinctWrites(earlier);
      MergedSnoc([], earlier, w);
      FindIs(earlier, w.key, |earlier|);
    }
  }
}
