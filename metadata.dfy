/**
 * RepresentationMetadata: the facts declared about one resource, kept as
 * an ordered list of (predicate, value) pairs. Every pair has the resource
 * itself as subject, so the subject is left implicit. Adding a pair that is
 * already present changes nothing (the store holds no identical quad twice),
 * `get` gives the first value of a predicate and `getAll` all of them in
 * insertion order.
 */
module Metadata {
  import opened Wrappers

  /** The predicate `rdf:type` under which declared types are stored. */
  const RdfType: string := "http://www.w3.org/1999/02/22-rdf-syntax-ns#type"

  datatype Quad = Quad(pred: string, value: string)

  /** No quad occurs twice. */
  predicate NoDuplicates<T(==)>(s: seq<T>) {
    forall i, j :: 0 <= i < j < |s| ==> s[i] != s[j]
  }

  /** The values of predicate `p`, in the order their quads were inserted. */
  function Values(quads: seq<Quad>, p: string): (vs: seq<string>)
    ensures |vs| <= |quads|
    ensures forall v :: v in vs <==> Quad(p, v) in quads
  {
    if quads == [] then []
    else
      var init := Values(quads[..|quads| - 1], p);
      var last := quads[|quads| - 1];
      assert quads == quads[..|quads| - 1] + [last];
      if last.pred == p then init + [last.value] else init
  }

  /** The first value of predicate `p`, if there is one. */
  function First(quads: seq<Quad>, p: string): (r: Option<string>)
    ensures r.None? <==> Values(quads, p) == []
    ensures r.Some? ==> r.value == Values(quads, p)[0] && Quad(p, r.value) in quads
  {
    if quads == [] then None
    else if quads[0].pred == p then
      ValuesOfCons(quads, p);
      Some(quads[0].value)
    else
      ValuesOfCons(quads, p);
      First(quads[1..], p)
  }

  /** Values read from the front: the first quad's value comes first. */
  lemma {:induction false} ValuesOfCons(quads: seq<Quad>, p: string)
    requires quads != []
    ensures Values(quads, p)
         == (if quads[0].pred == p then [quads[0].value] else []) + Values(quads[1..], p)
  {
    if |quads| > 1 {
      var init := quads[..|quads| - 1];
      ValuesOfCons(init, p);
      assert init[1..] == quads[1..][..|quads[1..]| - 1];
      assert init[0] == quads[0];
    } else {
      assert quads[1..] == [];
      assert quads[..0] == [];
    }
  }

  /** The quads after adding `q`: unchanged if `q` is already there, otherwise `q` at the end. */
  function Insert(quads: seq<Quad>, q: Quad): (r: seq<Quad>)
    ensures q in r
    ensures |quads| <= |r| <= |quads| + 1
    ensures forall x :: x in r <==> x in quads || x == q
    ensures NoDuplicates(quads) ==> NoDuplicates(r)
  {
    if q in quads then quads else quads + [q]
  }

  /**
   * The quads after adding value after value of `vs` under predicate `p`, in
   * order: the quads already there keep their places, and each value adds at
   * most one quad after them.
   */
  function InsertAll(quads: seq<Quad>, p: string, vs: seq<string>): (r: seq<Quad>)
    ensures |quads| <= |r| <= |quads| + |vs|
  {
    if vs == [] then quads
    else Insert(InsertAll(quads, p, vs[..|vs| - 1]), Quad(p, vs[|vs| - 1]))
  }

  /** Adding values keeps the quads already there in their places: the old quads are a prefix of the new. */
  lemma {:induction false} InsertAllExtends(quads: seq<Quad>, p: string, vs: seq<string>)
    ensures quads <= InsertAll(quads, p, vs)
  {
    if vs != [] {
      var before := InsertAll(quads, p, vs[..|vs| - 1]);
      InsertAllExtends(quads, p, vs[..|vs| - 1]);
      assert before <= Insert(before, Quad(p, vs[|vs| - 1]));
    }
  }

  /** Adding the elements of an Option: the one value if there is one, nothing otherwise. */
  lemma InsertOption(quads: seq<Quad>, p: string, o: Option<string>)
    ensures InsertAll(quads, p, OptionToSeq(o)) == if o.Some? then Insert(quads, Quad(p, o.value)) else quads
  {
    if o.Some? {
      assert [o.value][..0] == [];
    }
  }

  /** Adding values never introduces a duplicate quad. */
  lemma {:induction false} InsertAllKeepsNoDuplicates(quads: seq<Quad>, p: string, vs: seq<string>)
    requires NoDuplicates(quads)
    ensures NoDuplicates(InsertAll(quads, p, vs))
  {
    if vs != [] {
      InsertAllKeepsNoDuplicates(quads, p, vs[..|vs| - 1]);
    }
  }

  /** After adding, a quad is present exactly when it was already there or is one of the added ones. */
  lemma {:induction false} InsertAllContents(quads: seq<Quad>, p: string, vs: seq<string>)
    ensures forall x :: x in InsertAll(quads, p, vs) <==> x in quads || (x.pred == p && x.value in vs)
  {
    if vs != [] {
      var init := vs[..|vs| - 1];
      InsertAllContents(quads, p, init);
      assert vs == init + [vs[|vs| - 1]];
      assert forall v :: v in vs <==> v in init || v == vs[|vs| - 1];
    }
  }

  /** Adding values in two batches is the same as adding them in one. */
  lemma {:induction false} InsertAllAppend(quads: seq<Quad>, p: string, a: seq<string>, b: seq<string>)
    ensures InsertAll(InsertAll(quads, p, a), p, b) == InsertAll(quads, p, a + b)
  {
    if b == [] {
      assert a + b == a;
    } else {
      var b' := b[..|b| - 1];
      InsertAllAppend(quads, p, a, b');
      assert (a + b)[..|a + b| - 1] == a + b';
      assert (a + b)[|a + b| - 1] == b[|b| - 1];
    }
  }

  /** Values of other predicates are not affected by adding values under `p`. */
  lemma {:induction false} InsertAllOtherPredicate(quads: seq<Quad>, p: string, vs: seq<string>, p': string)
    requires p' != p
    ensures Values(InsertAll(quads, p, vs), p') == Values(quads, p')
  {
    if vs != [] {
      InsertAllOtherPredicate(quads, p, vs[..|vs| - 1], p');
      var before := InsertAll(quads, p, vs[..|vs| - 1]);
      var q := Quad(p, vs[|vs| - 1]);
      if q !in before {
        ValuesOfSnoc(before, q, p');
      }
    }
  }

  /** Values read from the back: a quad added last contributes its value last. */
  lemma ValuesOfSnoc(quads: seq<Quad>, q: Quad, p: string)
    ensures Values(quads + [q], p) == Values(quads, p) + (if q.pred == p then [q.value] else [])
  {
    assert (quads + [q])[..|quads + [q]| - 1] == quads;
  }

  /** A value that occurs only in the last position of a duplicate-free sequence is not in the rest. */
  lemma LastNotInInit<T>(vs: seq<T>)
    requires vs != [] && NoDuplicates(vs)
    ensures vs[|vs| - 1] !in vs[..|vs| - 1]
    ensures NoDuplicates(vs[..|vs| - 1])
  {
    assert forall k :: 0 <= k < |vs| - 1 ==> vs[..|vs| - 1][k] == vs[k] != vs[|vs| - 1];
  }

  /**
   * Adding distinct new values under `p` appends them, in order, to the
   * values of `p`, and adds one quad per value.
   */
  lemma {:induction false} InsertAllFreshValues(quads: seq<Quad>, p: string, vs: seq<string>)
    requires NoDuplicates(vs)
    requires forall v :: v in vs ==> Quad(p, v) !in quads
    ensures Values(InsertAll(quads, p, vs), p) == Values(quads, p) + vs
    ensures |InsertAll(quads, p, vs)| == |quads| + |vs|
  {
    if vs != [] {
      var init, last := vs[..|vs| - 1], vs[|vs| - 1];
      FreshLast(quads, p, vs);
      InsertAllFreshValues(quads, p, init);
      FreshStep(quads, p, init, last);
      assert init + [last] == vs;
    }
  }

  /** The last of distinct fresh values is fresh after the others are added, and the others stay distinct and fresh. */
  lemma FreshLast(quads: seq<Quad>, p: string, vs: seq<string>)
    requires vs != [] && NoDuplicates(vs)
    requires forall v :: v in vs ==> Quad(p, v) !in quads
    ensures NoDuplicates(vs[..|vs| - 1])
    ensures forall v :: v in vs[..|vs| - 1] ==> Quad(p, v) !in quads
    ensures Quad(p, vs[|vs| - 1]) !in InsertAll(quads, p, vs[..|vs| - 1])
  {
    var init, last := vs[..|vs| - 1], vs[|vs| - 1];
    assert vs == init + [last];
    LastNotInInit(vs);
    InsertAllContents(quads, p, init);
  }

  /** Adding one more fresh value appends its quad and its value. */
  lemma FreshStep(quads: seq<Quad>, p: string, init: seq<string>, last: string)
    requires Values(InsertAll(quads, p, init), p) == Values(quads, p) + init
    requires |InsertAll(quads, p, init)| == |quads| + |init|
    requires Quad(p, last) !in InsertAll(quads, p, init)
    ensures Values(InsertAll(quads, p, init + [last]), p) == Values(quads, p) + (init + [last])
    ensures |InsertAll(quads, p, init + [last])| == |quads| + |init + [last]|
  {
    var vs := init + [last];
    assert vs[..|vs| - 1] == init && vs[|vs| - 1] == last;
    var before := InsertAll(quads, p, init);
    assert InsertAll(quads, p, vs) == before + [Quad(p, last)];
    ValuesOfSnoc(before, Quad(p, last), p);
  }

  /**
   * The metadata object that parsers fill in place. Its quads are in
   * insertion order and never hold the same quad twice.
   */
  class RepresentationMetadata {
    var quads: seq<Quad>

    ghost predicate Valid()
      reads this
    {
      NoDuplicates(quads)
    }

    /** A new, empty metadata object. */
    constructor ()
      ensures Valid() && quads == []
    {
      quads := [];
    }

    /** `add(p, v)`: records the quad (p, v) unless it is already recorded. */
    method Add(p: string, v: string)
      requires Valid()
      modifies this
      ensures Valid()
      ensures quads == Insert(old(quads), Quad(p, v))
    {
      if Quad(p, v) !in quads {
        quads := quads + [Quad(p, v)];
      }
    }

    /** `get(p)`: the first value of `p`, or nothing. */
    function Get(p: string): (r: Option<string>)
      reads this
      ensures r.None? <==> (forall v :: Quad(p, v) !in quads)
      ensures r.Some? ==> Quad(p, r.value) in quads && r.value == GetAll(p)[0]
    {
      First(quads, p)
    }

    /** `getAll(p)`: every value of `p`, in insertion order. */
    function GetAll(p: string): (vs: seq<string>)
      reads this
      ensures forall v :: v in vs <==> Quad(p, v) in quads
    {
      Values(quads, p)
    }

    /** `quads()`: every recorded quad. */
    function Quads(): (qs: seq<Quad>)
      reads this
      ensures Valid() ==> NoDuplicates(qs)
    {
      quads
    }
  }
}
