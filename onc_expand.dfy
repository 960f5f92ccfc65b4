/**
 * Placeholder expansion (ExpandField, ExpandStringsInOncObject,
 * ExpandStringsInNetworks in onc_utils.cc): the login-ID and email tokens in the
 * identity fields of EAP, L2TP and OpenVPN objects are replaced, in place, by the
 * values a StringSubstitution offers.
 */
module OncExpand {
  import opened Wrappers
  import opened OncValues
  import opened OncSchema

  // substitutes::kLoginIDField and substitutes::kEmailField
  const LoginIdToken: Bytes := "${LOGIN_ID}"
  const EmailToken: Bytes := "${LOGIN_EMAIL}"

  /** GetSubstitute for the two placeholders: None when no substitute is available. */
  datatype StringSubstitution = StringSubstitution(loginId: Option<Bytes>, email: Option<Bytes>)

  /** `find` occurs in `s` at position i. */
  predicate OccursAt(s: Bytes, find: Bytes, i: int)
  {
    0 <= i && i + |find| <= |s| && s[i..i + |find|] == find
  }

  /**
   * base::ReplaceSubstringsAfterOffset from offset 0: every occurrence of `find`,
   * scanning left to right, is replaced by `rep`; the scan resumes after the
   * inserted text, so `rep` itself is never rescanned.
   */
  function ReplaceAll(s: Bytes, find: Bytes, rep: Bytes): Bytes
    requires |find| > 0
    decreases |s|
  {
    if |s| < |find| then s
    else if s[..|find|] == find then rep + ReplaceAll(s[|find|..], find, rep)
    else [s[0]] + ReplaceAll(s[1..], find, rep)
  }

  /** A string without the token is left as it is. */
  lemma {:induction false} ReplaceAllWithoutOccurrence(s: Bytes, find: Bytes, rep: Bytes)
    requires |find| > 0
    requires forall i :: !OccursAt(s, find, i)
    ensures ReplaceAll(s, find, rep) == s
    decreases |s|
  {
    if |s| >= |find| {
      assert !OccursAt(s, find, 0);
      forall i ensures !OccursAt(s[1..], find, i) {
        if OccursAt(s[1..], find, i) {
          assert s[1..][i..i + |find|] == s[i + 1..i + 1 + |find|];
          assert OccursAt(s, find, i + 1);
        }
      }
      ReplaceAllWithoutOccurrence(s[1..], find, rep);
      assert [s[0]] + s[1..] == s;
    }
  }

  /** Replacing the token by itself changes nothing. */
  lemma {:induction false} ReplaceAllBySelf(s: Bytes, find: Bytes)
    requires |find| > 0
    ensures ReplaceAll(s, find, find) == s
    decreases |s|
  {
    if |s| >= |find| {
      if s[..|find|] == find {
        ReplaceAllBySelf(s[|find|..], find);
        assert find + s[|find|..] == s;
      } else {
        ReplaceAllBySelf(s[1..], find);
        assert [s[0]] + s[1..] == s;
      }
    }
  }

  /** The login-ID token first, then the email token, each only when its substitute is available. */
  function ExpandString(subst: StringSubstitution, s: Bytes): Bytes
  {
    var afterLogin := if subst.loginId.Some? then ReplaceAll(s, LoginIdToken, subst.loginId.value) else s;
    if subst.email.Some? then ReplaceAll(afterLogin, EmailToken, subst.email.value) else afterLogin
  }

  /** The dictionary ExpandField leaves behind. */
  function ExpandedField(fieldname: Bytes, subst: StringSubstitution, e: Entries): Entries
  {
    match GetString(e, fieldname)
    case None => e
    case Some(s) => e[fieldname := Str(ExpandString(subst, s))]
  }

  /** The fields a kind declares as identity-bearing, expanded in this order. */
  function ExpandedLocally(kind: Kind, subst: StringSubstitution, e: Entries): Entries
  {
    if kind == EAP then ExpandedField(IdentityKey, subst, ExpandedField(AnonymousIdentityKey, subst, e))
    else if kind == L2TP || kind == OpenVPN then ExpandedField(UsernameKey, subst, e)
    else e
  }

  lemma ExpandedLocallyKeepsNonStrings(kind: Kind, subst: StringSubstitution, e: Entries)
    ensures ExpandedLocally(kind, subst, e).Keys == e.Keys
    ensures forall k :: k in e && !e[k].Str? ==> ExpandedLocally(kind, subst, e)[k] == e[k]
  {
  }

  /** The tree ExpandStringsInOncObject leaves behind, for a dictionary `v` of kind `kind`. */
  function ExpandedObject(schema: Schema, kind: Kind, subst: StringSubstitution, v: Value): Value
    requires v.Dict?
    decreases v
  {
    var local := ExpandedLocally(kind, subst, v.entries);
    ExpandedLocallyKeepsNonStrings(kind, subst, v.entries);
    Dict(map k | k in v.entries ::
      if v.entries[k].Dict? && schema(kind, k).Some?
      then ExpandedObject(schema, schema(kind, k).value, subst, v.entries[k])
      else local[k])
  }

  /**
   * ExpandField: nothing happens when the field is missing or not a string;
   * otherwise the field is replaced by its expansion and no other key changes.
   */
  method ExpandField(fieldname: Bytes, subst: StringSubstitution, obj: DictionaryValue)
    modifies obj
    ensures GetString(old(obj.entries), fieldname).None? ==> obj.entries == old(obj.entries)
    ensures GetString(old(obj.entries), fieldname).Some? ==>
      obj.entries == old(obj.entries)[fieldname := Str(ExpandString(subst, old(obj.entries)[fieldname].s))]
    ensures obj.entries == ExpandedField(fieldname, subst, old(obj.entries))
  {
    if !(fieldname in obj.entries && obj.entries[fieldname].Str?) {
      return;
    }
    var userString := obj.entries[fieldname].s;
    if subst.loginId.Some? {
      userString := ReplaceAll(userString, LoginIdToken, subst.loginId.value);
    }
    if subst.email.Some? {
      userString := ReplaceAll(userString, EmailToken, subst.email.value);
    }
    obj.entries := obj.entries[fieldname := Str(userString)];
  }

  /**
   * ExpandStringsInOncObject: expands the identity fields of this object and then
   * recurses into each nested dictionary whose field the kind declares. The source
   * visits the keys in sorted order; the result does not depend on the order.
   */
  method ExpandStringsInOncObject(schema: Schema, kind: Kind, subst: StringSubstitution,
                                  obj: DictionaryValue, ghost tree: Value)
    requires tree == Dict(obj.entries)
    modifies obj
    ensures Dict(obj.entries) == ExpandedObject(schema, kind, subst, tree)
    decreases tree, 2
  {
    ExpandLocally(kind, subst, obj);
    ExpandNested(schema, kind, subst, obj, tree);
  }

  /** The recursion of ExpandStringsInOncObject, after the object's own fields are expanded. */
  method ExpandNested(schema: Schema, kind: Kind, subst: StringSubstitution,
                      obj: DictionaryValue, ghost tree: Value)
    requires tree.Dict? && obj.entries == ExpandedLocally(kind, subst, tree.entries)
    modifies obj
    ensures Dict(obj.entries) == ExpandedObject(schema, kind, subst, tree)
    decreases tree, 1
  {
    ghost var local := obj.entries;
    ghost var target := ExpandedObject(schema, kind, subst, tree).entries;
    ExpandedLocallyKeepsNonStrings(kind, subst, tree.entries);
    var keys := obj.entries.Keys;
    while keys != {}
      invariant WalkedExcept(obj.entries, local, target, keys)
      decreases keys
    {
      var k :| k in keys;
      ghost var before := obj.entries;
      ExpandEntry(schema, kind, subst, obj, k, tree);
      WalkedStep(before, local, target, keys, k);
      keys := keys - {k};
    }
    WalkedAll(obj.entries, local, target);
  }

  /** One step of the recursion: the nested dictionary under `k`, if its field is declared, is expanded in place. */
  method ExpandEntry(schema: Schema, kind: Kind, subst: StringSubstitution,
                     obj: DictionaryValue, k: Bytes, ghost tree: Value)
    requires tree.Dict? && k in tree.entries && k in obj.entries
    requires obj.entries[k] == ExpandedLocally(kind, subst, tree.entries)[k]
    modifies obj
    ensures obj.entries == old(obj.entries)[k := ExpandedObject(schema, kind, subst, tree).entries[k]]
    decreases tree, 0
  {
    ExpandedObjectAt(schema, kind, subst, tree, k);
    if obj.entries[k].Dict? && schema(kind, k).Some? {
      var inner := new DictionaryValue(obj.entries[k].entries);
      ExpandStringsInOncObject(schema, schema(kind, k).value, subst, inner, tree.entries[k]);
      obj.entries := obj.entries[k := Dict(inner.entries)];
    }
  }

  /** The expansions of ExpandStringsInOncObject's first branch, in order. */
  method ExpandLocally(kind: Kind, subst: StringSubstitution, obj: DictionaryValue)
    modifies obj
    ensures obj.entries == ExpandedLocally(kind, subst, old(obj.entries))
  {
    if kind == EAP {
      ExpandField(AnonymousIdentityKey, subst, obj);
      ExpandField(IdentityKey, subst, obj);
    } else if kind == L2TP || kind == OpenVPN {
      ExpandField(UsernameKey, subst, obj);
    }
  }

  /** One entry of ExpandedObject: declared dictionaries recurse, everything else is expanded locally. */
  lemma ExpandedObjectAt(schema: Schema, kind: Kind, subst: StringSubstitution, v: Value, k: Bytes)
    requires v.Dict? && k in v.entries
    ensures var local := ExpandedLocally(kind, subst, v.entries);
      var r := ExpandedObject(schema, kind, subst, v).entries;
      && k in local && k in r
      && (v.entries[k].Dict? ==> local[k] == v.entries[k])
      && r[k] == if local[k].Dict? && schema(kind, k).Some?
                    then ExpandedObject(schema, schema(kind, k).value, subst, local[k])
                    else local[k]
  {
    ExpandedLocallyKeepsNonStrings(kind, subst, v.entries);
  }

  /** ExpandStringsInNetworks: every entry, a dictionary, is expanded as a network configuration. */
  method ExpandStringsInNetworks(schema: Schema, subst: StringSubstitution, networkConfigs: ListValue)
    requires AllDicts(networkConfigs.items)
    modifies networkConfigs
    ensures |networkConfigs.items| == |old(networkConfigs.items)|
    ensures forall i :: 0 <= i < |networkConfigs.items| ==>
      networkConfigs.items[i] == ExpandedObject(schema, NetworkConfiguration, subst, old(networkConfigs.items[i]))
  {
    var i := 0;
    while i < |networkConfigs.items|
      invariant 0 <= i <= |networkConfigs.items| == |old(networkConfigs.items)|
      invariant forall j :: i <= j < |networkConfigs.items| ==> networkConfigs.items[j] == old(networkConfigs.items[j])
      invariant forall j :: 0 <= j < i ==>
        networkConfigs.items[j] == ExpandedObject(schema, NetworkConfiguration, subst, old(networkConfigs.items[j]))
    {
      var network := new DictionaryValue(networkConfigs.items[i].entries);
      ExpandStringsInOncObject(schema, NetworkConfiguration, subst, network, networkConfigs.items[i]);
      networkConfigs.items := networkConfigs.items[i := Dict(network.entries)];
      i := i + 1;
    }
  }

  /** With no substitute available, expansion leaves the whole tree as it is. */
  lemma {:induction false} ExpandWithoutSubstitutes(schema: Schema, kind: Kind, v: Value)
    requires v.Dict?
    ensures ExpandedObject(schema, kind, StringSubstitution(None, None), v) == v
    decreases v
  {
    var subst := StringSubstitution(None, None);
    var r := ExpandedObject(schema, kind, subst, v);
    forall k | k in v.entries && v.entries[k].Dict? && schema(kind, k).Some?
      ensures ExpandedObject(schema, schema(kind, k).value, subst, v.entries[k]) == v.entries[k]
    {
      ExpandWithoutSubstitutes(schema, schema(kind, k).value, v.entries[k]);
    }
    assert r.entries == v.entries;
  }

  /** `b` is `a` with at most its strings changed: same keys, same list and scalar values, at every depth. */
  predicate SameShape(a: Value, b: Value)
    decreases a
  {
    match a
    case Str(_) => b.Str?
    case Dict(e) => b.Dict? && b.entries.Keys == e.Keys && forall k :: k in e ==> SameShape(e[k], b.entries[k])
    case _ => b == a
  }

  /** Expansion only rewrites strings: no key is added or removed and no other value changes. */
  lemma {:induction false} ExpandKeepsShape(schema: Schema, kind: Kind, subst: StringSubstitution, v: Value)
    requires v.Dict?
    ensures SameShape(v, ExpandedObject(schema, kind, subst, v))
    decreases v
  {
    var r := ExpandedObject(schema, kind, subst, v);
    ExpandedLocallyKeepsNonStrings(kind, subst, v.entries);
    forall k | k in v.entries ensures SameShape(v.entries[k], r.entries[k]) {
      if v.entries[k].Dict? && schema(kind, k).Some? {
        ExpandKeepsShape(schema, schema(kind, k).value, subst, v.entries[k]);
      } else {
        SameShapeRefl(v.entries[k]);
        var local := ExpandedLocally(kind, subst, v.entries);
        assert r.entries[k] == local[k];
      }
    }
  }

  lemma {:induction false} SameShapeRefl(a: Value)
    ensures SameShape(a, a)
    decreases a
  {
    match a
    case Dict(e) =>
      forall k | k in e ensures SameShape(e[k], e[k]) { SameShapeRefl(e[k]); }
    case _ =>
  }

  /** Only EAP, L2TP and OpenVPN objects have fields expanded; any other object keeps its own strings. */
  lemma ExpandOtherKindsLocally(kind: Kind, subst: StringSubstitution, e: Entries)
    requires kind != EAP && kind != L2TP && kind != OpenVPN
    ensures ExpandedLocally(kind, subst, e) == e
  {
  }

  /** An EAP identity "${LOGIN_ID}@corp" becomes "alice@corp" for login ID "alice". */
  lemma ExpandExample()
    ensures ExpandString(StringSubstitution(Some("alice"), None), "${LOGIN_ID}@corp") == "alice@corp"
  {
    var s: Bytes := "${LOGIN_ID}@corp";
    assert s[..|LoginIdToken|] == LoginIdToken;
    var rest: Bytes := "@corp";
    assert s[|LoginIdToken|..] == rest;
    assert ReplaceAll(rest, LoginIdToken, "alice") == rest;
  }
}
