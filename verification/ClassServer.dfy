/** The hierarchy of atom types (opencog/atomspace/ClassServer.cc). */
module ClassServers {
  type Type = nat

  const NOTYPE: Type := 65535

  type Matrix = seq<seq<bool>>

  predicate Square(m: Matrix, n: nat) {
    |m| == n && forall i :: 0 <= i < n ==> |m[i]| == n
  }

  predicate At(m: Matrix, i: nat, j: nat) {
    i < |m| && j < |m[i]| && m[i][j]
  }

  function Set(m: Matrix, i: nat, j: nat): Matrix
    requires i < |m| && j < |m[i]|
  {
    m[i := m[i][j := true]]
  }

  lemma SetAt(m: Matrix, n: nat, i: nat, j: nat)
    requires Square(m, n) && i < n && j < n
    ensures Square(Set(m, i, j), n)
    ensures forall a: Type, b: Type :: At(Set(m, i, j), a, b) <==> At(m, a, b) || (a == i && b == j)
  {
  }

  /** A row and a column more, without entries. */
  function Grown(m: Matrix): Matrix {
    seq(|m|, i requires 0 <= i < |m| => m[i] + [false]) + [seq(|m| + 1, _ => false)]
  }

  lemma GrownAt(m: Matrix, n: nat)
    requires Square(m, n)
    ensures Square(Grown(m), n + 1)
    ensures forall a: Type, b: Type :: At(Grown(m), a, b) <==> At(m, a, b)
  {
  }

  // ------------------------------------------------------- orders and closures

  ghost predicate Reflexive(m: Matrix, n: nat) {
    forall a: Type :: 0 <= a < n ==> At(m, a, a)
  }

  ghost predicate Transitive(m: Matrix) {
    forall a: Type, b: Type, c: Type :: At(m, a, b) && At(m, b, c) ==> At(m, a, c)
  }

  ghost predicate Antisymmetric(m: Matrix) {
    forall a: Type, b: Type :: At(m, a, b) && At(m, b, a) ==> a == b
  }

  /** `m[a][b]`: type `b` is of type `a`. */
  ghost predicate PartialOrder(m: Matrix, n: nat) {
    Square(m, n) && Reflexive(m, n) && Transitive(m) && Antisymmetric(m)
  }

  /** A reflexive and transitive relation that holds wherever `inh` does. */
  ghost predicate Includes(s: set<(Type, Type)>, inh: Matrix, n: nat) {
    && (forall a: Type :: 0 <= a < n ==> (a, a) in s)
    && (forall a: Type, b: Type, c: Type :: (a, b) in s && (b, c) in s ==> (a, c) in s)
    && (forall a: Type, b: Type :: At(inh, a, b) ==> (a, b) in s)
  }

  /** `rec` is the reflexive and transitive closure of `inh`: the least such relation. */
  ghost predicate ClosureOf(inh: Matrix, rec: Matrix, n: nat) {
    && Square(inh, n) && Square(rec, n) && Reflexive(rec, n) && Transitive(rec)
    && (forall a: Type, b: Type :: At(inh, a, b) ==> At(rec, a, b))
    && (forall s: set<(Type, Type)> :: Includes(s, inh, n) ==> forall a: Type, b: Type :: At(rec, a, b) ==> (a, b) in s)
  }

  ghost function EntriesOf(m: Matrix, n: nat): set<(Type, Type)> {
    set a: Type, b: Type | 0 <= a < n && 0 <= b < n && At(m, a, b) :: (a, b)
  }

  /** The entries that adding `type` below `parent` makes: for `parent` and all above it. */
  ghost predicate Spread(before: Matrix, after: Matrix, order: Matrix, parent: Type, t: Type) {
    forall a: Type, b: Type :: At(after, a, b) <==>
      At(before, a, b) || (b == t && (a == parent || At(order, a, parent)))
  }

  /** All that is properly below `t` is below `parent` already. */
  ghost predicate BelowBoth(rec: Matrix, parent: Type, t: Type) {
    forall b: Type :: At(rec, t, b) && b != t ==> At(rec, parent, b)
  }

  /** The entries above suffice exactly if the descendants of `t` were below `parent` before. */
  lemma SpreadCloses(inh: Matrix, rec: Matrix, rec': Matrix, n: nat, parent: Type, t: Type)
    requires ClosureOf(inh, rec, n) && parent < n && t < n
    requires Square(rec', n) && Spread(rec, rec', rec, parent, t)
    ensures ClosureOf(Set(inh, parent, t), rec', n) <==> BelowBoth(rec, parent, t)
  {
    var inh' := Set(inh, parent, t);
    SetAt(inh, n, parent, t);
    assert At(rec', parent, t);
    if BelowBoth(rec, parent, t) {
      forall a: Type, b: Type, c: Type | At(rec', a, b) && At(rec', b, c) ensures At(rec', a, c) {
        if At(rec, a, b) {
          // Above `b` stays above.
        } else if c != t {
          assert b == t && At(rec, t, c) && At(rec, parent, c);
        }
      }
      forall s: set<(Type, Type)> | Includes(s, inh', n)
        ensures forall a: Type, b: Type :: At(rec', a, b) ==> (a, b) in s
      {
        IncludesLess(s, inh, inh', n);
        assert At(inh', parent, t) && (parent, t) in s;
        forall a: Type, b: Type | At(rec', a, b) ensures (a, b) in s {
          if !At(rec, a, b) {
            assert a == parent || (a, parent) in s;
          }
        }
      }
    } else {
      var b: Type :| At(rec, t, b) && b != t && !At(rec, parent, b);
      assert At(rec', parent, t) && At(rec', t, b) && !At(rec', parent, b);
    }
  }

  lemma IncludesLess(s: set<(Type, Type)>, inh: Matrix, inh': Matrix, n: nat)
    requires Includes(s, inh', n) && forall a: Type, b: Type :: At(inh, a, b) ==> At(inh', a, b)
    ensures Includes(s, inh, n)
  {
  }

  /** If `t` is not properly above `parent`, no cycle arises. */
  lemma SpreadAntisymmetric(rec: Matrix, rec': Matrix, n: nat, parent: Type, t: Type)
    requires PartialOrder(rec, n) && parent < n && t < n && (At(rec, t, parent) ==> t == parent)
    requires Spread(rec, rec', rec, parent, t)
    ensures Antisymmetric(rec')
  {
    forall a: Type, b: Type | At(rec', a, b) && At(rec', b, a) ensures a == b {
      if !At(rec, a, b) {
        assert b == t && (a == parent || At(rec, a, parent));
        assert At(rec, b, a) ==> At(rec, t, parent);
      } else if !At(rec, b, a) {
        assert a == t && (b == parent || At(rec, b, parent));
        assert At(rec, a, b) ==> At(rec, t, parent);
      }
    }
  }

  /** A new type, related to nothing but itself. */
  lemma LoneType(inh: Matrix, rec: Matrix, n: nat)
    requires ClosureOf(inh, rec, n) && Antisymmetric(rec)
    ensures Square(Grown(inh), n + 1) && Square(Grown(rec), n + 1)
    ensures ClosureOf(Set(Grown(inh), n, n), Set(Grown(rec), n, n), n + 1)
    ensures PartialOrder(Set(Grown(rec), n, n), n + 1)
    ensures forall b: Type :: At(Set(Grown(rec), n, n), n, b) <==> b == n
    ensures forall a: Type :: At(Set(Grown(rec), n, n), a, n) <==> a == n
  {
    GrownAt(inh, n);
    GrownAt(rec, n);
    SetAt(Grown(inh), n + 1, n, n);
    SetAt(Grown(rec), n + 1, n, n);
    var inh', rec' := Set(Grown(inh), n, n), Set(Grown(rec), n, n);
    var n' := n + 1;
    forall s: set<(Type, Type)> | Includes(s, inh', n')
      ensures forall a: Type, b: Type :: At(rec', a, b) ==> (a, b) in s
    {
      IncludesLess(s, inh, inh', n');
      assert Includes(s, inh, n);
    }
  }

  lemma ClosureOrders(inh: Matrix, rec: Matrix, n: nat)
    ensures ClosureOf(inh, rec, n) && Antisymmetric(rec) ==> PartialOrder(rec, n)
  {
  }

  lemma NothingBelow(rec: Matrix, parent: Type, t: Type)
    requires forall b: Type :: At(rec, t, b) <==> b == t
    ensures BelowBoth(rec, parent, t)
  {
  }

  class ClassServer {
    var nTypes: nat
    var inheritanceMap: Matrix
    var recursiveMap: Matrix
    var name2CodeMap: map<string, Type>

    constructor ()
      ensures Valid() && nTypes == 0 && name2CodeMap == map[]
    {
      nTypes, inheritanceMap, recursiveMap, name2CodeMap := 0, [], [], map[];
    }

    /** The hierarchy is acyclic, and its closure is at hand. */
    ghost predicate Valid()
      reads this
    {
      && ClosureOf(inheritanceMap, recursiveMap, nTypes) && PartialOrder(recursiveMap, nTypes)
      && forall name :: name in name2CodeMap ==> name2CodeMap[name] < nTypes
    }

    predicate IsA(t: Type, parent: Type)
      reads this`nTypes, this`recursiveMap
    {
      t < nTypes && parent < nTypes && At(recursiveMap, parent, t)
    }

    /** A type is of another exactly if every reflexive and transitive relation that holds the declared
        edges relates them; and being of a type is a partial order. */
    lemma IsAMeans(t: Type, parent: Type)
      requires Valid()
      ensures IsA(t, parent) <==>
        t < nTypes && parent < nTypes
        && forall s: set<(Type, Type)> :: Includes(s, inheritanceMap, nTypes) ==> (parent, t) in s
      ensures t < nTypes ==> IsA(t, t)
      ensures IsA(t, parent) && IsA(parent, t) ==> t == parent
      ensures forall u: Type :: IsA(t, parent) && IsA(parent, u) ==> IsA(t, u)
    {
      var s := EntriesOf(recursiveMap, nTypes);
      assert Includes(s, inheritanceMap, nTypes);
      assert (parent, t) in s <==> parent < nTypes && t < nTypes && At(recursiveMap, parent, t);
    }

    /** What is properly above a type. */
    static ghost function Ancestors(order: Matrix, n: nat, t: Type): set<Type> {
      set a: Type | 0 <= a < n && At(order, a, t) && a != t
    }

    /** Makes `t` a descendant of `parent` and of all above it. `order` is the relation as it was. */
    method SetParentRecursively(parent: Type, t: Type, ghost order: Matrix)
      requires Square(recursiveMap, nTypes) && PartialOrder(order, nTypes) && parent < nTypes && t < nTypes
      requires At(order, t, parent) ==> t == parent
      requires forall a: Type, b: Type :: At(order, a, b) ==> At(recursiveMap, a, b)
      requires forall a: Type, b: Type :: At(recursiveMap, a, b) && (b != t || t == parent) ==> At(order, a, b)
      modifies this`recursiveMap
      ensures Square(recursiveMap, nTypes) && Spread(old(recursiveMap), recursiveMap, order, parent, t)
      decreases Ancestors(order, nTypes, parent)
    {
      SetAt(recursiveMap, nTypes, parent, t);
      recursiveMap := Set(recursiveMap, parent, t);
      for i := 0 to nTypes
        invariant Square(recursiveMap, nTypes)
        invariant forall a: Type, b: Type :: At(old(recursiveMap), a, b) ==> At(recursiveMap, a, b)
        invariant At(recursiveMap, parent, t)
        invariant forall a: Type, b: Type :: At(recursiveMap, a, b) ==>
          At(old(recursiveMap), a, b) || (b == t && (a == parent || At(order, a, parent)))
        invariant forall a: Type :: 0 <= a < i && At(order, a, parent) ==> At(recursiveMap, a, t)
      {
        if recursiveMap[i][parent] && i != parent {
          assert At(recursiveMap, i, parent);
          assert At(order, i, parent);
          assert i in Ancestors(order, nTypes, parent) && i !in Ancestors(order, nTypes, i);
          SetParentRecursively(i, t, order);
        }
      }
    }

    /** Declares a type below `parent`; declaring a name again adds a parent to its type. */
    method AddType(parent: Type, name: string) returns (t: Type)
      requires Valid() && nTypes < NOTYPE
      requires parent < nTypes || (parent == nTypes && name !in name2CodeMap)
      requires name in name2CodeMap && At(recursiveMap, name2CodeMap[name], parent) ==> name2CodeMap[name] == parent
      modifies this
      ensures t < nTypes && name in name2CodeMap && name2CodeMap[name] == t
      ensures name2CodeMap == old(name2CodeMap)[name := t]
      ensures name !in old(name2CodeMap) ==> Valid() && t == old(nTypes) && nTypes == t + 1
      ensures name in old(name2CodeMap) ==> nTypes == old(nTypes) && t == old(name2CodeMap[name])
      ensures name in old(name2CodeMap) ==> (Valid() <==> BelowBoth(old(recursiveMap), parent, t))
      ensures forall a: Type, b: Type :: At(inheritanceMap, a, b) <==>
        At(old(inheritanceMap), a, b) || (a == parent && b == t) || (name !in old(name2CodeMap) && a == t && b == t)
    {
      hide *;
      ghost var inh0, rec0, n0 := inheritanceMap, recursiveMap, nTypes;
      ValidParts();
      if name in name2CodeMap {
        t := name2CodeMap[name];
        SetAt(inheritanceMap, nTypes, parent, t);
        inheritanceMap := Set(inheritanceMap, parent, t);
        SetParentRecursively(parent, t, rec0);
        SpreadCloses(inh0, rec0, recursiveMap, nTypes, parent, t);
        SpreadAntisymmetric(rec0, recursiveMap, nTypes, parent, t);
        ClosureOrders(inheritanceMap, recursiveMap, nTypes);
        ValidAgain();
        assert name2CodeMap[name := t] == name2CodeMap;
        return;
      }
      LoneType(inh0, rec0, n0);
      t := nTypes;
      nTypes := nTypes + 1;
      inheritanceMap, recursiveMap := Grown(inheritanceMap), Grown(recursiveMap);
      SetAt(inheritanceMap, nTypes, t, t);
      inheritanceMap := Set(inheritanceMap, t, t);
      SetAt(inheritanceMap, nTypes, parent, t);
      inheritanceMap := Set(inheritanceMap, parent, t);
      SetAt(recursiveMap, nTypes, t, t);
      recursiveMap := Set(recursiveMap, t, t);
      ghost var inh1, rec1 := Set(Grown(inh0), n0, n0), recursiveMap;
      SetParentRecursively(parent, t, rec1);
      name2CodeMap := name2CodeMap[name := t];
      SpreadCloses(inh1, rec1, recursiveMap, nTypes, parent, t);
      SpreadAntisymmetric(rec1, recursiveMap, nTypes, parent, t);
      NothingBelow(rec1, parent, t);
      ClosureOrders(inheritanceMap, recursiveMap, nTypes);
      GrownAt(inh0, n0);
      ValidAgain();
    }

    lemma ValidParts()
      requires Valid()
      ensures ClosureOf(inheritanceMap, recursiveMap, nTypes) && PartialOrder(recursiveMap, nTypes)
      ensures Square(inheritanceMap, nTypes) && Square(recursiveMap, nTypes) && Antisymmetric(recursiveMap)
      ensures forall name :: name in name2CodeMap ==> name2CodeMap[name] < nTypes
    {
    }

    lemma ValidAgain()
      ensures
        && ClosureOf(inheritanceMap, recursiveMap, nTypes) && PartialOrder(recursiveMap, nTypes)
        && (forall name :: name in name2CodeMap ==> name2CodeMap[name] < nTypes)
        <==> Valid()
    {
    }
  }

  // ------------------------------------------------------- a declaration that loses the closure

  /** With only type 1 declared below type 0, and type 2 alone, type 1 is not below type 2. */
  lemma ThreeTypes(inh: Matrix, rec: Matrix)
    requires ClosureOf(inh, rec, 3)
    requires forall a: Type, b: Type :: At(inh, a, b) <==> a < 3 && b < 3 && (a == b || (a == 0 && b == 1))
    ensures !At(rec, 0, 2) && !BelowBoth(rec, 2, 0)
  {
    var s: set<(Type, Type)> := {(0, 0), (1, 1), (2, 2), (0, 1)};
    assert Includes(s, inh, 3);
    assert At(inh, 0, 1);
    assert (2, 1) !in s && (0, 2) !in s;
    assert At(rec, 0, 1) && !At(rec, 2, 1);
  }

  /** Type "b" is below type "a", type "c" stands alone. Declaring "a" below "c" as well leaves "b" outside
      of "c". */
  method RedeclarationCanFail() returns (server: ClassServer)
    ensures !server.Valid()
  {
    hide *;
    FewTypes();
    server := new ClassServer();
    NoEdges(server);
    var a := server.AddType(0, "a");
    var b := server.AddType(0, "b");
    var c := server.AddType(2, "c");
    server.ValidParts();
    ThreeTypes(server.inheritanceMap, server.recursiveMap);
    a := server.AddType(2, "a");
  }

  lemma FewTypes()
    ensures NOTYPE > 3
  {
  }

  lemma NoEdges(server: ClassServer)
    requires server.Valid() && server.nTypes == 0
    ensures forall a: Type, b: Type :: !At(server.inheritanceMap, a, b)
  {
  }
}
