/** Bytes, C strings and a few facts about sequences that every other module uses. */
module Base {

  type Byte = b: int | 0 <= b < 256
  type Str = seq<Byte>

  datatype Option<T> = None | Some(value: T)

  /** The repository as it stands, or with the small repairs that its evident intent asks for.
      The places where the two differ are marked "Repair" in the bodies. */
  datatype Edition = AsWritten | Repaired

  /** Removing position k of a list makes the C code as written dereference a null next pointer: the
      node is not the head and has no successor. */
  predicate RemovalFaults(edition: Edition, size: nat, k: nat) {
    edition.AsWritten? && 0 < k == size - 1
  }

  /** Every element occurs at one index only. */
  ghost predicate Distinct<T>(s: seq<T>) {
    forall i {:trigger s[i]} :: 0 <= i < |s| ==> IndexOf(s, s[i]) == i
  }

  ghost function IndexOf<T>(s: seq<T>, x: T): (k: nat)
    requires x in s
    ensures k < |s| && s[k] == x
  {
    var k: nat :| k < |s| && s[k] == x;
    k
  }

  lemma DistinctMeans<T>(s: seq<T>)
    ensures Distinct(s) <==> forall i, j :: 0 <= i < j < |s| ==> s[i] != s[j]
  {
  }

  /** s without the element at index k. */
  function DropAt<T>(s: seq<T>, k: nat): (r: seq<T>)
    requires k < |s|
    ensures |r| == |s| - 1
    ensures forall i {:trigger r[i]} :: 0 <= i < |r| ==> r[i] == if i < k then s[i] else s[i + 1]
  {
    seq(|s| - 1, i requires 0 <= i < |s| - 1 => if i < k then s[i] else s[i + 1])
  }

  lemma DropAtDistinct<T>(s: seq<T>, k: nat)
    requires k < |s| && Distinct(s)
    ensures Distinct(DropAt(s, k))
    ensures forall x :: x in DropAt(s, k) <==> x in s && x != s[k]
  {
    var d := DropAt(s, k);
    DistinctMeans(d);
    forall x ensures x in d <==> x in s && x != s[k] {
      if x in d {
        var i :| 0 <= i < |d| && d[i] == x;
        assert x == if i < k then s[i] else s[i + 1];
      }
      if x in s && x != s[k] {
        var i :| 0 <= i < |s| && s[i] == x;
        assert x == d[if i < k then i else i - 1];
      }
    }
  }

  /** The nodes created and not freed are exactly those in the list, each listed once. */
  ghost predicate Owned<N>(nodes: seq<N>, created: set<N>, freed: set<N>) {
    && Distinct(nodes)
    && freed <= created
    && (forall n :: n in nodes ==> n in created && n !in freed)
    && (forall n :: n in created && n !in freed ==> n in nodes)
  }

  lemma OwnedAfterAdd<N>(nodes: seq<N>, created: set<N>, freed: set<N>, n: N)
    requires Owned(nodes, created, freed) && n !in created
    ensures Owned([n] + nodes, created + {n}, freed)
  {
    DistinctMeans([n] + nodes);
    DistinctMeans(nodes);
  }

  lemma OwnedAfterFree<N>(nodes: seq<N>, created: set<N>, freed: set<N>, k: nat)
    requires Owned(nodes, created, freed) && k < |nodes|
    ensures Owned(DropAt(nodes, k), created, freed + {nodes[k]})
  {
    DropAtDistinct(nodes, k);
  }

  /** Freeing the first node: it comes next in the order of the frees. */
  lemma FirstFreed<N>(order: seq<N>, nodes: seq<N>)
    requires nodes != [] && Distinct(nodes)
    ensures IndexOf(nodes, nodes[0]) == 0
    ensures order + [nodes[0]] + DropAt(nodes, 0) == order + nodes
  {
    assert nodes == [nodes[0]] + DropAt(nodes, 0);
  }

  function Reverse<T>(s: seq<T>): (r: seq<T>)
    ensures |r| == |s|
    ensures forall i :: 0 <= i < |s| ==> r[i] == s[|s| - 1 - i]
  {
    if s == [] then [] else Reverse(s[1..]) + [s[0]]
  }

  function Zeros(n: nat): (z: seq<Byte>)
    ensures |z| == n
    ensures forall i :: 0 <= i < n ==> z[i] == 0
  {
    seq(n, _ => 0)
  }

  /** The string a C function sees at the start of a buffer: the bytes before the first NUL. */
  function CString(buffer: seq<Byte>): (s: Str)
    ensures s <= buffer && 0 !in s
    ensures |s| < |buffer| ==> buffer[|s|] == 0
  {
    if buffer == [] || buffer[0] == 0 then [] else [buffer[0]] + CString(buffer[1..])
  }

  /** The text of a buffer: what is in front of its first NUL, or all of it. */
  predicate TextOf(text: Str, buffer: seq<Byte>) {
    text <= buffer && 0 !in text && (|text| < |buffer| ==> buffer[|text|] == 0)
  }

  /** A buffer has one text only. */
  lemma {:induction false} CStringUnique(buffer: seq<Byte>, s: Str)
    requires TextOf(s, buffer)
    ensures CString(buffer) == s
  {
    if s != [] {
      assert s[0] != 0 && buffer[0] == s[0];
      assert s[1..] <= buffer[1..];
      CStringUnique(buffer[1..], s[1..]);
    }
  }
}
