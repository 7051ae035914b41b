/** The part of a vendor registry that its signature covers. */
module VendorRegistry {
  import opened Options
  import opened CodeUnits
  import opened CanonicalJson

  const SIGNATURE: Text := Ascii("signature")
  const SIGNATURES: Text := Ascii("signatures")
  const VENDORS: Text := Ascii("vendors")

  predicate IsSignature(key: Text): (signs: bool)
    ensures signs <==> key in {Ascii("signature"), Ascii("signatures")}
  {
    key == SIGNATURE || key == SIGNATURES
  }

  /** A bare list of vendors is wrapped; a registry without such a list is refused. */
  function Load(parsed: Json): Option<seq<Field>> {
    match parsed
    case Arr(_) => Some([Field(VENDORS, parsed)])
    case Obj(fields) =>
      if VENDORS in Keys(fields) && Lookup(fields, VENDORS).Arr? then Some(fields) else None
    case _ => None
  }

  /** What is loaded: a list, wrapped under its name, or an object with a list under that name. */
  lemma LoadIsExact(parsed: Json, fields: seq<Field>)
    ensures Load(parsed) == Some(fields) <==>
              || (parsed.Arr? && fields == [Field(Ascii("vendors"), parsed)])
              || (parsed == Obj(fields) && Ascii("vendors") in Keys(fields) && Lookup(fields, Ascii("vendors")).Arr?)
  {
    hide Lookup, Keys;
  }

  function Payload(fields: seq<Field>): seq<Field> {
    if fields == [] then []
    else (if IsSignature(fields[0].key) then [] else [fields[0]]) + Payload(fields[1..])
  }

  function PayloadText(fields: seq<Field>): Text {
    Canonicalize(Obj(Payload(fields)))
  }

  /** A property in front counts only where no later one has its name. */
  lemma LookupInFront(f: Field, fields: seq<Field>, key: Text)
    ensures key in Keys([f] + fields) <==> key == f.key || key in Keys(fields)
    ensures key in Keys(fields) ==> Lookup([f] + fields, key) == Lookup(fields, key)
    ensures key == f.key && key !in Keys(fields) ==> Lookup([f] + fields, key) == f.value
  {
    var all := [f] + fields;
    assert all[0] == f && forall j :: 0 < j < |all| ==> all[j] == fields[j - 1];
    if key in Keys(fields) {
      var i := LastIndex(fields, key);
      assert all[i + 1] == fields[i];
    }
  }

  /** The payload has every property that is no signature, with the same value. */
  lemma {:induction false} PayloadMember(fields: seq<Field>, key: Text)
    ensures key in Keys(Payload(fields)) <==> key in Keys(fields) && !IsSignature(key)
    ensures key in Keys(Payload(fields)) ==> Lookup(Payload(fields), key) == Lookup(fields, key)
  {
    if fields != [] {
      hide Lookup, IsSignature;
      PayloadMember(fields[1..], key);
      assert fields == [fields[0]] + fields[1..];
      LookupInFront(fields[0], fields[1..], key);
      LookupInFront(fields[0], Payload(fields[1..]), key);
      assert [] + Payload(fields[1..]) == Payload(fields[1..]);
    }
  }

  predicate SameMember(a: seq<Field>, b: seq<Field>, key: Text) {
    if key in Keys(a) then key in Keys(b) && Meaning(Lookup(a, key)) == Meaning(Lookup(b, key)) else key !in Keys(b)
  }

  /**
   The signed text does not depend on the signature fields and determines every other field, so one text is shared by
   exactly the registries that agree outside their signatures.
   */
  lemma PayloadTextIsExact(a: seq<Field>, b: seq<Field>)
    ensures PayloadText(a) == PayloadText(b) <==> forall k :: !IsSignature(k) ==> SameMember(a, b, k)
  {
    var p, q := Payload(a), Payload(b);
    hide Lookup, Canonicalize, IsSignature, Payload;
    CanonicalIsInjective(Obj(p), Obj(q));
    forall k ensures !IsSignature(k) ==> (SameMember(a, b, k) <==> SameMember(p, q, k)) {
      PayloadMember(a, k);
      PayloadMember(b, k);
    }
    forall k | IsSignature(k) ensures SameMember(p, q, k) {
      PayloadMember(a, k);
      PayloadMember(b, k);
    }
    SameMembersSameMeaning(p, q);
  }

  lemma MemberMeaning(fields: seq<Field>, key: Text)
    ensures var d := Meaning(Obj(fields));
            d.DObject? && (key in d.members <==> key in Keys(fields))
            && (key in d.members ==> d.members[key] == Meaning(Lookup(fields, key)))
  {
  }

  lemma SameMembersSameMeaning(a: seq<Field>, b: seq<Field>)
    ensures Meaning(Obj(a)) == Meaning(Obj(b)) <==> forall k :: SameMember(a, b, k)
  {
    MemberMeaning(a, []);
    MemberMeaning(b, []);
    hide Meaning, Lookup, Keys;
    var m, n := Meaning(Obj(a)), Meaning(Obj(b));
    forall k
      ensures SameMember(a, b, k) <==> (k in m.members <==> k in n.members) && (k in m.members ==> m.members[k] == n.members[k])
    {
      MemberMeaning(a, k);
      MemberMeaning(b, k);
    }
    if forall k :: SameMember(a, b, k) {
      assert m.members == n.members by {
        forall k ensures k in m.members <==> k in n.members { assert SameMember(a, b, k); }
        forall k | k in m.members ensures m.members[k] == n.members[k] { assert SameMember(a, b, k); }
      }
    }
  }

  /** Signing a registry, or replacing its signatures, leaves the signed text as it was. */
  lemma SignaturesAreNotSigned(fields: seq<Field>, signature: Field)
    requires IsSignature(signature.key)
    ensures PayloadText(fields + [signature]) == PayloadText(fields)
  {
    forall k | !IsSignature(k) ensures SameMember(fields + [signature], fields, k) {
      assert (fields + [signature])[..|fields|] == fields;
      if k in Keys(fields) {
        var i := LastIndex(fields, k);
        assert (fields + [signature])[i] == fields[i];
      }
    }
    PayloadTextIsExact(fields + [signature], fields);
  }

  lemma VendorsAreSigned()
    ensures !IsSignature(VENDORS)
  {
    assert |VENDORS| == 7 && |SIGNATURE| == 9 && |SIGNATURES| == 10;
  }

  /** A bare list of vendors is signed as the registry that has nothing but this list, and signatures. */
  lemma BareListIsSignedAlike(vendors: Json, fields: seq<Field>)
    requires vendors.Arr? && Load(Obj(fields)) == Some(fields)
    ensures Load(vendors).Some?
    ensures PayloadText(Load(vendors).value) == PayloadText(fields) <==>
              && Ascii("vendors") in Keys(fields) && Meaning(Lookup(fields, Ascii("vendors"))) == Meaning(vendors)
              && forall k :: k in Keys(fields) ==> k == Ascii("vendors") || IsSignature(k)
  {
    var bare := [Field(VENDORS, vendors)];
    hide Canonicalize, Meaning, Payload, Lookup, IsSignature;
    VendorsAreSigned();
    LookupDistinct(bare, bare[0]);
    assert Keys(bare) == {VENDORS};
    PayloadTextIsExact(bare, fields);
    assert SameMember(bare, fields, VENDORS) <==> Meaning(Lookup(fields, VENDORS)) == Meaning(vendors);
    forall k | k != VENDORS ensures SameMember(bare, fields, k) <==> k !in Keys(fields) {
    }
    if PayloadText(bare) == PayloadText(fields) {
      forall k | k in Keys(fields) ensures k == VENDORS || IsSignature(k) {
        assert !IsSignature(k) ==> SameMember(bare, fields, k);
      }
    }
  }
}
