/** The `OrderedDict`s that hold mapping sections (VAR, IVAR, FROZENVAR,
    DEFINE, ASSIGN), as sequences of entries in insertion order.

    A Python dict puts two keys in the same slot when their hashes agree
    and `==` holds. Every expression's `__eq__` builds an `Eq` node
    (model.py:51-55) whose truth is `left.equals(right)` (model.py:846-851),
    so a slot is shared exactly when `equals` holds: the hashes follow the
    node structure, so equal nodes always hash alike. `equals` is strict
    about the class (model.py:183-187), so an `Identifier` and a bound
    `Declaration` of the same name take two slots although they hash
    alike. `SameKey` states exactly that. A complex identifier is the
    exception: it hashes and compares by the identity of its pyparsing
    body (model.py:203-210), which the model does not have, so here two
    `Equals` complex identifiers share a slot.

    Putting a key into a dictionary hashes it first, and some hashes
    raise; `Hashable` says which keys hash. */
module OrderedMaps {
  import opened Wrappers
  import opened Ast
  import opened Equality

  type Entries<V> = seq<(Expr, V)>

  /** Two keys share a slot of an `OrderedDict`. */
  predicate SameKey(a: Expr, b: Expr) {
    Equals(a, b)
  }

  /** `hash(e)` returns. Every `__hash__` hashes all parts of its node,
      except a complex identifier's, which hashes its pyparsing body. Three
      nodes raise: an unnamed declaration reads its `name` property, which
      raises `AttributeError` (model.py:180-181, 1417-1421); a `Case`
      hashes its `OrderedDict` and an `ArrayAccess` its list of accesses,
      which raise `TypeError` (model.py:416-417, 482-484). */
  predicate Hashable(e: Expr)
    decreases e
  {
    match e
    case DeclIdent(_, n, _) => n != ""
    case Case(_, _) => false
    case ArrayAccess(_, _, _) => false
    case Conversion(_, v, _) => Hashable(v)
    case WordFunction(_, v, size, _) => Hashable(v) && Hashable(size)
    case Count(v, _) => Hashable(v)
    case Next(v, _) => Hashable(v)
    case Init(v, _) => Hashable(v)
    case Subscript(i, _) => Hashable(i)
    case BitSelection(a, b, _) => Hashable(a) && Hashable(b)
    case SetExpr(xs, _) => forall i | 0 <= i < |xs| :: Hashable(xs[i])
    case Unary(_, v, _) => Hashable(v)
    case Binary(_, a, b, _) => Hashable(a) && Hashable(b)
    case Ite(c, a, b, _) => Hashable(c) && Hashable(a) && Hashable(b)
    case _ => true
  }

  /** The keys, in order. */
  function Keys<V>(m: Entries<V>): (ks: seq<Expr>)
    ensures |ks| == |m|
    ensures forall i | 0 <= i < |m| :: ks[i] == m[i].0
  {
    seq(|m|, i requires 0 <= i < |m| => m[i].0)
  }

  /** The first slot whose key shares `k`'s slot, or `|m|` if none does. */
  function Slot<V>(m: Entries<V>, k: Expr): (i: nat)
    ensures i <= |m|
    ensures i < |m| ==> SameKey(m[i].0, k)
    ensures forall j | 0 <= j < i :: !SameKey(m[j].0, k)
    decreases |m|
  {
    if |m| == 0 then 0
    else if SameKey(m[0].0, k) then 0
    else 1 + Slot(m[1..], k)
  }

  /** `d[k]`, `None` for a `KeyError`. */
  function Lookup<V>(m: Entries<V>, k: Expr): Option<V> {
    var i := Slot(m, k);
    if i < |m| then Some(m[i].1) else None
  }

  /** `d[k] = v`: an existing slot keeps its first key and position and
      takes the new value; a new key goes to the end. */
  function Put<V>(m: Entries<V>, k: Expr, v: V): Entries<V> {
    var i := Slot(m, k);
    if i < |m| then m[i := (m[i].0, v)] else m + [(k, v)]
  }

  /** `d.update(other)`: the entries of `other`, put one after another. */
  function Update<V>(m: Entries<V>, other: Entries<V>): Entries<V>
    decreases |other|
  {
    if |other| == 0 then m else Update(Put(m, other[0].0, other[0].1), other[1..])
  }

  /** `OrderedDict(zip(keys, values))`. */
  function FromPairs<V>(pairs: Entries<V>): Entries<V> {
    Update([], pairs)
  }

  // ---------------------------------------------------------------------
  // Properties
  // ---------------------------------------------------------------------

  /** After `d[k] = v`, `d[k]` is `v`; the length grows by one exactly when
      the key was new; every other slot keeps its key and value, and the
      slot of `k` keeps its first key. */
  lemma PutThenLookup<V>(m: Entries<V>, k: Expr, v: V)
    ensures Lookup(Put(m, k, v), k) == Some(v)
    ensures |Put(m, k, v)| == if Lookup(m, k).Some? then |m| else |m| + 1
    ensures forall j | 0 <= j < |m| && j != Slot(m, k) :: Put(m, k, v)[j] == m[j]
    ensures Lookup(m, k).Some? ==> Keys(Put(m, k, v)) == Keys(m)
    ensures Lookup(m, k).None? ==> Keys(Put(m, k, v)) == Keys(m) + [k]
  {
    var i := Slot(m, k);
    var r := Put(m, k, v);
    if i < |m| {
      SlotOf(r, k, i);
      assert Keys(r) == Keys(m);
    } else {
      SameKeyReflexive(k);
      SlotOf(r, k, |m|);
      assert Keys(r) == Keys(m) + [k];
    }
  }

  /** A slot found by scanning is the first matching one. */
  lemma SlotOf<V>(m: Entries<V>, k: Expr, i: nat)
    requires i < |m| && SameKey(m[i].0, k)
    requires forall j | 0 <= j < i :: !SameKey(m[j].0, k)
    ensures Slot(m, k) == i
  {
  }

  lemma SameKeyReflexive(k: Expr)
    ensures SameKey(k, k)
  {
    EqualsReflexive(k);
  }

  /** Updating with nothing changes nothing; updating with one entry is
      one `d[k] = v`. */
  lemma UpdateBase<V>(m: Entries<V>, k: Expr, v: V)
    ensures Update(m, []) == m
    ensures Update(m, [(k, v)]) == Put(m, k, v)
  {
    assert [(k, v)][1..] == [];
  }

  /** `update` keeps the keys already present, in their order, and adds at
      most one slot per entry. */
  lemma {:induction false} UpdateKeepsPrefix<V>(m: Entries<V>, other: Entries<V>)
    ensures |m| <= |Update(m, other)| <= |m| + |other|
    ensures Keys(Update(m, other))[..|m|] == Keys(m)
    decreases |other|
  {
    if |other| > 0 {
      var k, v := other[0].0, other[0].1;
      var m1 := Put(m, k, v);
      PutThenLookup(m, k, v);
      UpdateKeepsPrefix(m1, other[1..]);
      assert Keys(m1)[..|m|] == Keys(m);
    }
  }

  /** A mapping built from at least one pair is not empty. */
  lemma FromPairsNonEmpty<V>(pairs: Entries<V>)
    requires |pairs| > 0
    ensures |FromPairs(pairs)| > 0
  {
    var m1 := Put([], pairs[0].0, pairs[0].1);
    assert m1 == [(pairs[0].0, pairs[0].1)];
    UpdateKeepsPrefix(m1, pairs[1..]);
  }

  /** Keys that meet no earlier key are simply appended, in order. */
  predicate Fresh<V>(m: Entries<V>, other: Entries<V>) {
    (forall i, j | 0 <= i < |m| && 0 <= j < |other| :: !SameKey(m[i].0, other[j].0))
    && (forall i, j | 0 <= i < j < |other| :: !SameKey(other[i].0, other[j].0))
  }

  lemma {:induction false} UpdateFreshAppends<V>(m: Entries<V>, other: Entries<V>)
    requires Fresh(m, other)
    ensures Update(m, other) == m + other
    decreases |other|
  {
    if |other| > 0 {
      FreshPut(m, other);
      FreshStep(m, other);
      UpdateFreshAppends(m + [other[0]], other[1..]);
      AppendStep(m, other);
    }
  }

  /** A key fresh to `m` goes to its end. */
  lemma FreshPut<V>(m: Entries<V>, other: Entries<V>)
    requires Fresh(m, other) && |other| > 0
    ensures Put(m, other[0].0, other[0].1) == m + [other[0]]
  {
    var k := other[0].0;
    assert forall i | 0 <= i < |m| :: !SameKey(m[i].0, k);
    assert Slot(m, k) == |m|;
  }

  /** Freshness survives moving the first entry over. */
  lemma FreshStep<V>(m: Entries<V>, other: Entries<V>)
    requires Fresh(m, other) && |other| > 0
    ensures Fresh(m + [other[0]], other[1..])
  {
    var m1 := m + [other[0]];
    forall i, j | 0 <= i < |m1| && 0 <= j < |other[1..]|
      ensures !SameKey(m1[i].0, other[1..][j].0)
    {
      if i == |m| {
        assert m1[i].0 == other[0].0 && other[1..][j] == other[j + 1];
      } else {
        assert m1[i] == m[i] && other[1..][j] == other[j + 1];
      }
    }
    forall i, j | 0 <= i < j < |other[1..]|
      ensures !SameKey(other[1..][i].0, other[1..][j].0)
    {
      assert other[1..][i] == other[i + 1] && other[1..][j] == other[j + 1];
    }
  }

  lemma AppendStep<V>(m: Entries<V>, other: Entries<V>)
    requires |other| > 0
    ensures (m + [other[0]]) + other[1..] == m + other
  {
    assert other == [other[0]] + other[1..];
  }

  /** Python's `==` between two names is `equals`, which compares the
      class first: a parsed `Identifier` and a bound declaration of the
      same name take two slots, though both hash as an identifier of that
      name, while two declarations of one kind and name share a slot
      whatever their cached sources. */
  lemma NamesApart(n: string, k: DeclKind, s: Option<string>, t: Option<string>)
    ensures !SameKey(Ident(n, s), DeclIdent(k, n, t))
    ensures !SameKey(DeclIdent(k, n, t), Ident(n, s))
    ensures SameKey(DeclIdent(k, n, s), DeclIdent(k, n, t))
  {
  }

  /** No two entries share a slot: what every `OrderedDict` holds. */
  predicate Apart<V>(m: Entries<V>) {
    forall i, j | 0 <= i < j < |m| :: !SameKey(m[i].0, m[j].0)
  }

  lemma PutKeepsApart<V>(m: Entries<V>, k: Expr, v: V)
    requires Apart(m)
    ensures Apart(Put(m, k, v))
  {
  }

  /** `update` never makes two entries share a slot. */
  lemma {:induction false} UpdateKeepsApart<V>(m: Entries<V>, other: Entries<V>)
    requires Apart(m)
    ensures Apart(Update(m, other))
    decreases |other|
  {
    if |other| > 0 {
      PutKeepsApart(m, other[0].0, other[0].1);
      UpdateKeepsApart(Put(m, other[0].0, other[0].1), other[1..]);
    }
  }

  /** Copying an `OrderedDict` entry by entry gives it back. */
  lemma CopyApart<V>(m: Entries<V>)
    requires Apart(m)
    ensures FromPairs(m) == m
  {
    UpdateFreshAppends([], m);
  }
}
