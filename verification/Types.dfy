/** The values every component shares: byte strings, entries, records. */
module Types {

  newtype byte = x: int | 0 <= x < 256

  type Bytes = seq<byte>

  datatype Option<+T> = None | Some(value: T) {
    predicate IsFailure() {
      None?
    }

    function PropagateFailure<U>(): Option<U>
      requires None?
    {
      None
    }

    function Extract(): T
      requires Some?
    {
      value
    }
  }

  datatype EntryType = PUT | DELETE

  /** `seqNo` is the write's sequence number (engine/include/types.h). */
  datatype Entry = Entry(value: Bytes, seqNo: nat, kind: EntryType)

  /** One binding of a `std::map<std::string, Entry>`, also one record of a table file. */
  datatype Rec = Rec(key: Bytes, entry: Entry)

  /** `std::string::operator<`: lexicographic on unsigned bytes. */
  predicate Less(a: Bytes, b: Bytes) {
    if b == [] then false
    else if a == [] then true
    else a[0] < b[0] || (a[0] == b[0] && Less(a[1..], b[1..]))
  }

  lemma {:induction false} LessIrreflexive(a: Bytes)
    ensures !Less(a, a)
  {
    if a != [] { LessIrreflexive(a[1..]); }
  }

  lemma {:induction false} LessTransitive(a: Bytes, b: Bytes, c: Bytes)
    requires Less(a, b) && Less(b, c)
    ensures Less(a, c)
  {
    if a != [] && a[0] == b[0] && b[0] == c[0] {
      LessTransitive(a[1..], b[1..], c[1..]);
    }
  }

  lemma {:induction false} LessTotal(a: Bytes, b: Bytes)
    ensures Less(a, b) || a == b || Less(b, a)
  {
    if a != [] && b != [] && a[0] == b[0] {
      LessTotal(a[1..], b[1..]);
      assert a == [a[0]] + a[1..] && b == [b[0]] + b[1..];
    }
  }

  /** At `i`, the first place where they differ, `a` has the smaller byte. */
  ghost predicate DiffersBelow(a: Bytes, b: Bytes, i: nat) {
    i < |a| && i < |b| && a[..i] == b[..i] && a[i] < b[i]
  }

  lemma {:induction false} DiffersLater(a: Bytes, b: Bytes, i: nat)
    requires a != [] && b != [] && a[0] == b[0]
    ensures DiffersBelow(a, b, i + 1) <==> DiffersBelow(a[1..], b[1..], i)
    ensures !DiffersBelow(a, b, 0)
  {
    if i < |a| - 1 && i < |b| - 1 {
      assert a[..i + 1] == [a[0]] + a[1..][..i] && b[..i + 1] == [b[0]] + b[1..][..i];
      assert a[..i + 1][1..] == a[1..][..i] && b[..i + 1][1..] == b[1..][..i];
    }
  }

  /** `a` comes before `b` exactly if it is a proper prefix of it, or has the smaller byte where they first differ. */
  lemma {:induction false} LessExact(a: Bytes, b: Bytes)
    ensures Less(a, b) <==> (|a| < |b| && a == b[..|a|]) || exists i :: DiffersBelow(a, b, i)
  {
    if a != [] && b != [] && a[0] == b[0] {
      hide DiffersBelow;
      var x, y := a[1..], b[1..];
      LessExact(x, y);
      assert a == [a[0]] + x && b == [b[0]] + y;
      if |x| < |y| { assert b[..|a|] == [b[0]] + y[..|x|]; }
      if i: nat :| DiffersBelow(x, y, i) { DiffersLater(a, b, i); }
      if i: nat :| DiffersBelow(a, b, i) { DiffersLater(a, b, if i > 0 then i - 1 else 0); }
    } else if a != [] && b != [] && a[0] < b[0] {
      assert DiffersBelow(a, b, 0);
    } else if a != [] && b != [] {
      forall i: nat ensures !DiffersBelow(a, b, i) {
        if 0 < i < |a| && i < |b| { assert a[..i][0] == a[0] && b[..i][0] == b[0]; }
      }
    }
  }
}
