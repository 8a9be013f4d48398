/** Matching signed context against request headers, which come as an unordered
    map in which one name may occur in several letter cases. */
module Headers {
  import opened Prelude
  import opened Credential

  /** A request's headers, as they were received. */
  type Header = map<Bytes, seq<Bytes>>

  /** `fold` maps a name to what `strings.EqualFold` compares. */
  type Fold = Bytes -> Bytes

  predicate Matches(candidate: Bytes, name: Bytes, fold: Fold) {
    fold(candidate) == fold(name)
  }

  /** Whether, over all spellings of the name together, `value` is there and
      nothing else is. */
  ghost predicate OnlyValue(header: Header, name: Bytes, value: Bytes, fold: Fold) {
    exists k ::
      && k in header && fold(k) == fold(name) && header[k] == [value]
      && forall o :: o in header && o != k && fold(o) == fold(name) ==> header[o] == []
  }

  predicate NoValue(header: Header, name: Bytes, fold: Fold) {
    forall k :: k in header && fold(k) == fold(name) ==> header[k] == []
  }

  /** The matching names, each once, in some order. */
  ghost predicate IsOrder(order: seq<Bytes>, header: Header, name: Bytes, fold: Fold) {
    && (forall i, j :: 0 <= i < j < |order| ==> order[i] != order[j])
    && (forall k :: k in order <==> k in header && fold(k) == fold(name))
  }

  /** Their values, one name's behind the other's. */
  function Gathered(header: Header, order: seq<Bytes>): seq<Bytes>
    requires forall k :: k in order ==> k in header
  {
    if order == [] then []
    else
      var n := |order| - 1;
      Gathered(header, order[..n]) + header[order[n]]
  }

  lemma OnlyValueGrows(seen: Header, k: Bytes, list: seq<Bytes>, name: Bytes, fold: Fold, value: Bytes)
    requires k !in seen && Matches(k, name, fold)
    ensures OnlyValue(seen[k := list], name, value, fold)
       <==> (OnlyValue(seen, name, value, fold) && list == []) || (NoValue(seen, name, fold) && list == [value])
  {
    var grown := seen[k := list];
    if OnlyValue(seen, name, value, fold) && list == [] {
      var o :| o in seen && Matches(o, name, fold) && seen[o] == [value]
               && forall p :: p in seen && p != o && Matches(p, name, fold) ==> seen[p] == [];
      assert grown[o] == [value];
    }
    if NoValue(seen, name, fold) && list == [value] {
      assert grown[k] == [value];
    }
    if OnlyValue(grown, name, value, fold) {
      var o :| o in grown && Matches(o, name, fold) && grown[o] == [value]
               && forall p :: p in grown && p != o && Matches(p, name, fold) ==> grown[p] == [];
      if o == k {
        forall p | p in seen && Matches(p, name, fold) ensures seen[p] == [] {
          assert grown[p] == seen[p];
        }
      } else {
        assert grown[k] == [];
        assert seen[o] == [value];
        forall p | p in seen && p != o && Matches(p, name, fold) ensures seen[p] == [] {
          assert grown[p] == seen[p];
        }
      }
    }
  }

  lemma OnlyValueSame(seen: Header, k: Bytes, list: seq<Bytes>, name: Bytes, fold: Fold, value: Bytes)
    requires k !in seen && !Matches(k, name, fold)
    ensures OnlyValue(seen[k := list], name, value, fold) <==> OnlyValue(seen, name, value, fold)
    ensures NoValue(seen[k := list], name, fold) <==> NoValue(seen, name, fold)
  {
    var grown := seen[k := list];
    assert forall o :: o in seen ==> grown[o] == seen[o];
    assert forall o :: o in grown && Matches(o, name, fold) ==> o in seen;
  }

  lemma OrderGrows(order: seq<Bytes>, seen: Header, k: Bytes, list: seq<Bytes>, name: Bytes, fold: Fold)
    requires IsOrder(order, seen, name, fold) && k !in seen && Matches(k, name, fold)
    ensures IsOrder(order + [k], seen[k := list], name, fold)
  {
  }

  /** `headerValues`. The loop meets the candidates in any order, so the
      values come name by name in any order; whether it is empty or one value alone does not
      depend on that. */
  method HeaderValues(header: Header, name: Bytes, fold: Fold) returns (values: seq<Bytes>)
    ensures exists order :: IsOrder(order, header, name, fold) && values == Gathered(header, order)
    ensures values == [] <==> NoValue(header, name, fold)
    ensures forall v :: values == [v] <==> OnlyValue(header, name, v, fold)
  {
    values := [];
    var left := header.Keys;
    ghost var seen: Header := map[];
    ghost var order: seq<Bytes> := [];
    while left != {}
      invariant left <= header.Keys && seen.Keys == header.Keys - left
      invariant forall k :: k in seen ==> seen[k] == header[k]
      invariant IsOrder(order, seen, name, fold) && values == Gathered(header, order)
      invariant values == [] <==> NoValue(seen, name, fold)
      invariant forall v :: values == [v] <==> OnlyValue(seen, name, v, fold)
      decreases left
    {
      var candidate :| candidate in left;
      left := left - {candidate};
      if Matches(candidate, name, fold) {
        forall v
          ensures values + header[candidate] == [v] <==> OnlyValue(seen[candidate := header[candidate]], name, v, fold)
        {
          OnlyValueGrows(seen, candidate, header[candidate], name, fold, v);
          SumIsOne(values, header[candidate], v);
        }
        OrderGrows(order, seen, candidate, header[candidate], name, fold);
        assert (order + [candidate])[..|order|] == order;
        values, order := values + header[candidate], order + [candidate];
      } else {
        forall v
          ensures OnlyValue(seen[candidate := header[candidate]], name, v, fold) <==> OnlyValue(seen, name, v, fold)
        {
          OnlyValueSame(seen, candidate, header[candidate], name, fold, v);
        }
        OnlyValueSame(seen, candidate, header[candidate], name, fold, []);
      }
      seen := seen[candidate := header[candidate]];
    }
    assert seen == header;
  }

  lemma SumIsOne(a: seq<Bytes>, b: seq<Bytes>, v: Bytes)
    ensures a + b == [v] <==> (a == [v] && b == []) || (a == [] && b == [v])
  {
    if a + b == [v] {
      assert |a| + |b| == 1;
      assert a == (a + b)[..|a|] && b == (a + b)[|a|..];
    }
  }

  /** `credentialFromHeaders`. */
  method CredentialFromHeaders(header: Header, authorization: Bytes, fold: Fold) returns (credential: Option<Bytes>)
    ensures forall c :: credential == Some(c) <==> Presents(header, authorization, c, fold)
  {
    var values := HeaderValues(header, authorization, fold);
    credential := BearerOf(values);
    forall c ensures credential == Some(c) <==> Presents(header, authorization, c, fold) {
      BearerIff(values, c);
    }
  }

  /** The request carries this bearer credential and no other authorization. */
  ghost predicate Presents(header: Header, authorization: Bytes, credential: Bytes, fold: Fold) {
    && OnlyValue(header, authorization, "Bearer " + credential, fold)
    && credential != [] && forall c :: c in credential ==> c != ' ' && c != '\t' && c != '\r' && c != '\n' && c != ','
  }

  // ----- signed context -----

  /** Every signed name has its one value; the parent's header is there exactly
      when its claim is. */
  ghost predicate ContextAgrees(header: Header, expected: map<Bytes, Bytes>, parent: Bytes,
                                parentValue: Option<Bytes>, fold: Fold) {
    && (forall name :: name in expected ==> OnlyValue(header, name, expected[name], fold))
    && (match parentValue
        case Some(v) => OnlyValue(header, parent, v, fold)
        case None => NoValue(header, parent, fold))
  }

  /** `validateContextHeaders`, over the signed names in any order. */
  method ValidateContextHeaders(header: Header, expected: map<Bytes, Bytes>, parent: Bytes,
                                parentValue: Option<Bytes>, fold: Fold) returns (ok: bool)
    ensures ok <==> ContextAgrees(header, expected, parent, parentValue, fold)
  {
    var left := expected.Keys;
    while left != {}
      invariant left <= expected.Keys
      invariant forall name :: name in expected && name !in left ==> OnlyValue(header, name, expected[name], fold)
      decreases left
    {
      var name :| name in left;
      left := left - {name};
      var values := HeaderValues(header, name, fold);
      if |values| != 1 || values[0] != expected[name] {
        assert values != [expected[name]];
        return false;
      }
      assert values == [expected[name]];
    }
    var parentValues := HeaderValues(header, parent, fold);
    match parentValue
    case Some(v) =>
      ok := |parentValues| == 1 && parentValues[0] == v;
      assert ok <==> parentValues == [v];
    case None =>
      ok := |parentValues| == 0;
  }
}
