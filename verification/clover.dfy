/**
 * The document-store query criteria that the entity filters build: an equality
 * test on one field, or the conjunction of two criteria. A filter that asks for
 * nothing is a nil criteria, `None`.
 */
module Clover {
  import opened Wrappers

  datatype Criteria = Eq(field: string, value: string) | And(left: Criteria, right: Criteria)

  /** A stored document as a criteria sees it: field name to field value. */
  type Document = map<string, string>

  /** The documents a criteria selects. */
  predicate Matches(c: Criteria, doc: Document) {
    match c
    case Eq(f, v) => f in doc && doc[f] == v
    case And(l, r) => Matches(l, doc) && Matches(r, doc)
  }

  predicate MatchesAll(cs: seq<Criteria>, doc: Document) {
    forall i :: 0 <= i < |cs| ==> Matches(cs[i], doc)
  }

  /** `cs[0].And(cs[1]).And(cs[2])...`: the left-nested conjunction of a non-empty list. */
  function Conjoin(cs: seq<Criteria>): Criteria
    requires cs != []
  {
    if |cs| == 1 then cs[0] else And(Conjoin(cs[..|cs| - 1]), cs[|cs| - 1])
  }

  /** The leaves of a criteria, left to right. */
  function Conjuncts(c: Criteria): seq<Criteria> {
    match c
    case Eq(_, _) => [c]
    case And(l, r) => Conjuncts(l) + Conjuncts(r)
  }

  /** Every right operand is a single equality. */
  predicate LeftNested(c: Criteria) {
    match c
    case Eq(_, _) => true
    case And(l, r) => r.Eq? && LeftNested(l)
  }

  predicate AllEq(cs: seq<Criteria>) {
    forall i :: 0 <= i < |cs| ==> cs[i].Eq?
  }

  /** Folding equalities with `And` gives a left-nested criteria whose leaves are the equalities, in order. */
  lemma {:induction false} ConjoinShape(cs: seq<Criteria>)
    requires cs != [] && AllEq(cs)
    ensures LeftNested(Conjoin(cs))
    ensures Conjuncts(Conjoin(cs)) == cs
  {
    if |cs| > 1 {
      var init := cs[..|cs| - 1];
      ConjoinShape(init);
      assert init + [cs[|cs| - 1]] == cs;
    }
  }

  lemma {:induction false} ConjunctsNonEmpty(c: Criteria)
    ensures |Conjuncts(c)| >= 1
  {
    match c
    case Eq(_, _) =>
    case And(l, _) => ConjunctsNonEmpty(l);
  }

  /** A left-nested criteria is determined by its leaves: the shape the filters build is unique. */
  lemma {:induction false} LeftNestedUnique(a: Criteria, b: Criteria)
    requires LeftNested(a) && LeftNested(b)
    requires Conjuncts(a) == Conjuncts(b)
    ensures a == b
  {
    match a
    case Eq(_, _) =>
      if b.And? {
        ConjunctsNonEmpty(b.left);
        assert false;
      }
    case And(al, ar) =>
      ConjunctsNonEmpty(al);
      if b.Eq? {
        assert false;
      } else {
        var n := |Conjuncts(a)|;
        assert Conjuncts(al) == Conjuncts(a)[..n - 1];
        assert Conjuncts(b.left) == Conjuncts(b)[..n - 1];
        LeftNestedUnique(al, b.left);
      }
  }

  /** A left-nested conjunction selects exactly the documents every one of its terms selects. */
  lemma {:induction false} MatchesConjoin(cs: seq<Criteria>, doc: Document)
    requires cs != []
    ensures Matches(Conjoin(cs), doc) <==> MatchesAll(cs, doc)
  {
    if |cs| > 1 {
      var init := cs[..|cs| - 1];
      MatchesConjoin(init, doc);
      assert MatchesAll(cs, doc) <==> MatchesAll(init, doc) && Matches(cs[|cs| - 1], doc) by {
        if MatchesAll(init, doc) && Matches(cs[|cs| - 1], doc) {
          forall i | 0 <= i < |cs| ensures Matches(cs[i], doc) {
            if i < |cs| - 1 { assert cs[i] == init[i]; }
          }
        }
      }
    }
  }

  lemma MatchesAllAppend(a: seq<Criteria>, b: seq<Criteria>, doc: Document)
    ensures MatchesAll(a + b, doc) <==> MatchesAll(a, doc) && MatchesAll(b, doc)
  {
    if MatchesAll(a + b, doc) {
      forall i | 0 <= i < |a| ensures Matches(a[i], doc) { assert (a + b)[i] == a[i]; }
      forall i | 0 <= i < |b| ensures Matches(b[i], doc) { assert (a + b)[|a| + i] == b[i]; }
    }
  }

  /**
   * What an entity filter asks of one field of a document: nothing when the
   * filter's value for that field is empty, otherwise that the field holds it.
   */
  predicate Wants(doc: Document, field: string, value: string) {
    value != "" ==> field in doc && doc[field] == value
  }

  /** Every (field, value) pair of a filter is satisfied by the document. */
  predicate Selects(fields: seq<(string, string)>, doc: Document) {
    forall i :: 0 <= i < |fields| ==> Wants(doc, fields[i].0, fields[i].1)
  }

  /** The equality terms a filter appends, in order: one per (field, value) pair with a non-empty value. */
  function Terms(fields: seq<(string, string)>): seq<Criteria> {
    if fields == [] then []
    else
      var last := fields[|fields| - 1];
      Terms(fields[..|fields| - 1]) + (if last.1 == "" then [] else [Eq(last.0, last.1)])
  }

  /** Appending a (field, value) pair appends its term, if any. */
  lemma TermsSnoc(fields: seq<(string, string)>, field: string, value: string)
    ensures Terms(fields + [(field, value)]) == Terms(fields) + (if value == "" then [] else [Eq(field, value)])
  {
  }

  /** The terms are equalities; there are none iff every value is empty; together they select what the pairs ask for. */
  lemma {:induction false} TermsMeaning(fields: seq<(string, string)>, doc: Document)
    ensures AllEq(Terms(fields))
    ensures Terms(fields) == [] <==> forall i :: 0 <= i < |fields| ==> fields[i].1 == ""
    ensures MatchesAll(Terms(fields), doc) <==> Selects(fields, doc)
  {
    if fields != [] {
      var init := fields[..|fields| - 1];
      var last := fields[|fields| - 1];
      TermsMeaning(init, doc);
      var ts := Terms(init);
      var tail: seq<Criteria> := if last.1 == "" then [] else [Eq(last.0, last.1)];
      assert Terms(fields) == ts + tail;
      MatchesAllAppend(ts, tail, doc);
      assert MatchesAll(tail, doc) <==> Wants(doc, last.0, last.1) by {
        if last.1 != "" { assert tail[0] == Eq(last.0, last.1); }
      }
      assert Selects(fields, doc) <==> Selects(init, doc) && Wants(doc, last.0, last.1) by {
        if Selects(init, doc) && Wants(doc, last.0, last.1) {
          forall i | 0 <= i < |fields| ensures Wants(doc, fields[i].0, fields[i].1) {
            if i < |fields| - 1 { assert fields[i] == init[i]; }
          }
        }
      }
      if (forall i :: 0 <= i < |fields| ==> fields[i].1 == "") {
        assert forall i :: 0 <= i < |init| ==> init[i].1 == "" by {
          forall i | 0 <= i < |init| ensures init[i].1 == "" { assert init[i] == fields[i]; }
        }
      }
      if Terms(fields) == [] {
        forall i | 0 <= i < |fields| ensures fields[i].1 == "" {
          if i < |fields| - 1 { assert fields[i] == init[i]; }
        }
      }
    }
  }

  /**
   * The filter built from a list of (field, value) pairs: left-nested, its
   * leaves are the terms in order, and it selects exactly the documents that
   * hold every non-empty value asked for.
   */
  lemma FilterOfFields(fields: seq<(string, string)>)
    requires Terms(fields) != []
    ensures LeftNested(Conjoin(Terms(fields)))
    ensures Conjuncts(Conjoin(Terms(fields))) == Terms(fields)
    ensures forall doc :: Matches(Conjoin(Terms(fields)), doc) <==> Selects(fields, doc)
  {
    var ts := Terms(fields);
    TermsMeaning(fields, map[]);
    ConjoinShape(ts);
    forall doc ensures Matches(Conjoin(ts), doc) <==> Selects(fields, doc) {
      MatchesConjoin(ts, doc);
      TermsMeaning(fields, doc);
    }
  }

  /**
   * The loop every entity filter ends with: nil when no term was appended,
   * otherwise the terms folded from the left with `And`.
   */
  method Fold(criterias: seq<Criteria>) returns (filter: Option<Criteria>)
    ensures criterias == [] ==> filter == None
    ensures criterias != [] ==> filter == Some(Conjoin(criterias))
  {
    if |criterias| == 0 {
      return None;
    }
    var acc := Eq("", "");  // the empty criteria the first iteration overwrites
    for idx := 0 to |criterias|
      invariant idx > 0 ==> acc == Conjoin(criterias[..idx])
    {
      if idx == 0 {
        acc := criterias[idx];
      } else {
        assert criterias[..idx + 1][..idx] == criterias[..idx];
        acc := And(acc, criterias[idx]);
      }
    }
    assert criterias[..|criterias|] == criterias;
    return Some(acc);
  }
}
