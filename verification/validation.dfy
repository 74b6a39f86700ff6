/**
 * Request validation shared by every multi-tenant record kind: the error type, its messages, and the
 * fixed check order (owner first, then required fields, then the id rule).
 */
module Validation {
  import opened Wrappers
  import opened Decimal

  datatype ValidationError =
    | MissingIdOnUpdate
    | MissingRequiredOnCreate(field: string)
    | InvalidOwnerId(detail: string)
    | IdProvidedOnCreate

  /**
   * The `Display` text of each error: a missing-field message quotes its field after a fixed prefix,
   * and an owner-mismatch message is its detail verbatim.
   */
  function Display(e: ValidationError): (r: string)
    ensures e.MissingRequiredOnCreate? ==> |r| == |MissingFieldPrefix| + |e.field| + 1
                                           && r[..|MissingFieldPrefix|] == MissingFieldPrefix
                                           && r[|MissingFieldPrefix|..|r| - 1] == e.field
    ensures e.InvalidOwnerId? ==> r == e.detail
    ensures e.MissingIdOnUpdate? || e.IdProvidedOnCreate? ==> '`' !in r
  {
    match e
    case MissingIdOnUpdate => "id required for updates"
    case MissingRequiredOnCreate(s) => "missing required field `" + s + "`"
    case InvalidOwnerId(s) => s
    case IdProvidedOnCreate => "id must not be provided for create"
  }

  const MissingFieldPrefix: string := "missing required field `"

  /** A missing-field message names its field: two such messages agree only for the same field. */
  lemma DisplayNamesMissingField(a: string, b: string)
    requires Display(MissingRequiredOnCreate(a)) == Display(MissingRequiredOnCreate(b))
    ensures a == b
  {
    var n := |MissingFieldPrefix|;
    var ma := Display(MissingRequiredOnCreate(a));
    var mb := Display(MissingRequiredOnCreate(b));
    assert |a| == |b|;
    assert ma[n..n + |a|] == a;
    assert mb[n..n + |b|] == b;
  }

  /**
   * An owner-mismatch error prints its detail verbatim, so its message can coincide with that of
   * another variant.
   */
  lemma OwnerMismatchPrintsVerbatim(s: string)
    ensures Display(InvalidOwnerId(s)) == s
    ensures Display(InvalidOwnerId("id required for updates")) == Display(MissingIdOnUpdate)
  {
  }

  /**
   * The detail of an owner mismatch. As written in every validator, the text labelled "request header"
   * carries the payload's owner and the text labelled "data" carries the header's owner.
   */
  function MismatchDetail(payloadOwner: I64, headerOwner: I64): (r: string)
    ensures |r| == |HeaderLabel| + |IntToString(payloadOwner)| + |DataLabel| + |IntToString(headerOwner)| + 1
    ensures r[..|HeaderLabel|] == HeaderLabel
    ensures r[|HeaderLabel|..|HeaderLabel| + |IntToString(payloadOwner)|] == IntToString(payloadOwner)
    ensures r[|r| - 1 - |IntToString(headerOwner)| - |DataLabel|..|r| - 1 - |IntToString(headerOwner)|] == DataLabel
    ensures r[|r| - 1 - |IntToString(headerOwner)|..|r| - 1] == IntToString(headerOwner)
  {
    var p, h := IntToString(payloadOwner), IntToString(headerOwner);
    Slices(HeaderLabel, p, DataLabel, h);
    HeaderLabel + p + (DataLabel + h + ")")
  }

  /**
   * Reading the mismatch text back: the number after the "request header" label parses to the
   * payload's owner, and the number after the "data" label parses to the header's owner.
   */
  lemma MismatchLabelsSwapped(payloadOwner: I64, headerOwner: I64)
    ensures var r, p, h := MismatchDetail(payloadOwner, headerOwner), IntToString(payloadOwner), IntToString(headerOwner);
            ParseI64(r[|HeaderLabel|..|HeaderLabel| + |p|]) == Some(payloadOwner)
            && ParseI64(r[|r| - 1 - |h|..|r| - 1]) == Some(headerOwner)
  {
    ParseFormatRoundTrip(payloadOwner);
    ParseFormatRoundTrip(headerOwner);
  }

  /** In `a + p + (m + h + ")")`, `p` follows `a`, and `h` sits just before the closing parenthesis. */
  lemma Slices(a: string, p: string, m: string, h: string)
    ensures var r := a + p + (m + h + ")");
            |r| == |a| + |p| + |m| + |h| + 1
            && r[..|a|] == a && r[|a|..|a| + |p|] == p
            && r[|r| - 1 - |h| - |m|..|r| - 1 - |h|] == m && r[|r| - 1 - |h|..|r| - 1] == h
  {
    var t := m + h + ")";
    var r := a + p + t;
    var k := |a| + |p| + |m|;
    assert r[..|a|] == a by {
      forall i | 0 <= i < |a| ensures r[i] == a[i] { assert r[i] == (a + p)[i]; }
    }
    assert r[|a|..|a| + |p|] == p by {
      forall i | 0 <= i < |p| ensures r[|a| + i] == p[i] { assert r[|a| + i] == (a + p)[|a| + i]; }
    }
    assert r[|a| + |p|..k] == m by {
      forall i | 0 <= i < |m| ensures r[|a| + |p| + i] == m[i] {
        assert r[|a| + |p| + i] == t[i];
        assert t[i] == (m + h)[i];
      }
    }
    assert r[k..k + |h|] == h by {
      forall i | 0 <= i < |h| ensures r[k + i] == h[i] {
        assert r[k + i] == t[|m| + i];
        assert t[|m| + i] == (m + h)[|m| + i];
      }
    }
  }

  /** The label the mismatch text opens with, and the one before its second number. */
  const HeaderLabel: string := "request header owner_id ("
  const DataLabel: string := ") does not match data owner_id ("

  /** The owner asserted by the payload is present and agrees with the header owner when there is one. */
  predicate OwnerAccepted(payloadOwner: Option<I64>, header: Option<I64>)
  {
    payloadOwner.Some? && (header.None? || header.value == payloadOwner.value)
  }

  /** The owner check every multi-tenant validator starts with; `None` means it passed. */
  function CheckOwner(payloadOwner: Option<I64>, header: Option<I64>): (r: Option<ValidationError>)
    ensures r.None? <==> OwnerAccepted(payloadOwner, header)
    ensures payloadOwner.None? ==> r == Some(MissingRequiredOnCreate("owner_id"))
    ensures payloadOwner.Some? && header.Some? && header.value != payloadOwner.value
            ==> r == Some(InvalidOwnerId(MismatchDetail(payloadOwner.value, header.value)))
  {
    match payloadOwner
    case None => Some(MissingRequiredOnCreate("owner_id"))
    case Some(p) =>
      if header.Some? && header.value != p then Some(InvalidOwnerId(MismatchDetail(p, header.value)))
      else None
  }

  /** A field that `validate_create` requires, and whether the request carries it. */
  datatype Required = Required(name: string, present: bool)

  predicate AllPresent(fields: seq<Required>)
  {
    forall i :: 0 <= i < |fields| ==> fields[i].present
  }

  /** The first absent required field, in the order the validator checks them. */
  function FirstMissing(fields: seq<Required>): (r: Option<string>)
    ensures r.None? <==> AllPresent(fields)
    ensures r.Some? ==> exists i :: 0 <= i < |fields| && !fields[i].present && fields[i].name == r.value
                                   && AllPresent(fields[..i])
    decreases |fields|
  {
    if |fields| == 0 then None
    else if !fields[0].present then Some(fields[0].name)
    else
      var rest := FirstMissing(fields[1..]);
      if rest.Some? then
        ghost var i :| 0 <= i < |fields[1..]| && !fields[1..][i].present && fields[1..][i].name == rest.value
                       && AllPresent(fields[1..][..i]);
        assert fields[..i + 1] == [fields[0]] + fields[1..][..i];
        rest
      else
        assert forall i :: 1 <= i < |fields| ==> fields[1..][i - 1] == fields[i];
        rest
  }

  /** The first required field is checked before the rest. */
  lemma FirstMissingCons(f: Required, rest: seq<Required>)
    ensures FirstMissing([f] + rest) == if !f.present then Some(f.name) else FirstMissing(rest)
  {
    assert ([f] + rest)[1..] == rest;
  }

  /** Two required fields are checked in their order. */
  lemma FirstMissingPair(a: Required, b: Required)
    ensures FirstMissing([a, b]) == if !a.present then Some(a.name) else if !b.present then Some(b.name) else None
  {
    FirstMissingCons(a, [b]);
    FirstMissingCons(b, []);
    assert [a] + [b] == [a, b];
    assert [b] + [] == [b];
  }

  /**
   * `validate_create` of a kind with a separate owner: the owner check, then the required fields in
   * order, then that no id is supplied. The first failure is returned.
   */
  function ValidateCreate(payloadOwner: Option<I64>, header: Option<I64>, required: seq<Required>, idPresent: bool)
    : (r: Result<(), ValidationError>)
    ensures r.Ok? <==> OwnerAccepted(payloadOwner, header) && AllPresent(required) && !idPresent
    ensures !OwnerAccepted(payloadOwner, header) ==> r == Err(CheckOwner(payloadOwner, header).value)
    ensures OwnerAccepted(payloadOwner, header) && FirstMissing(required).Some?
            ==> r == Err(MissingRequiredOnCreate(FirstMissing(required).value))
    ensures OwnerAccepted(payloadOwner, header) && AllPresent(required) && idPresent
            ==> r == Err(IdProvidedOnCreate)
  {
    var owner := CheckOwner(payloadOwner, header);
    if owner.Some? then Err(owner.value)
    else CheckFields(required, idPresent)
  }

  /** The checks after the owner check: required fields in order, then the id rule. */
  function CheckFields(required: seq<Required>, idPresent: bool): (r: Result<(), ValidationError>)
    ensures r.Ok? <==> AllPresent(required) && !idPresent
    ensures FirstMissing(required).Some? ==> r == Err(MissingRequiredOnCreate(FirstMissing(required).value))
    ensures AllPresent(required) && idPresent ==> r == Err(IdProvidedOnCreate)
  {
    var missing := FirstMissing(required);
    if missing.Some? then Err(MissingRequiredOnCreate(missing.value))
    else if idPresent then Err(IdProvidedOnCreate)
    else Ok(())
  }

  /** `validate_update` of a kind with a separate owner: the owner check, then the id must be present. */
  function ValidateUpdate(payloadOwner: Option<I64>, header: Option<I64>, idPresent: bool)
    : (r: Result<(), ValidationError>)
    ensures r.Ok? <==> OwnerAccepted(payloadOwner, header) && idPresent
    ensures !OwnerAccepted(payloadOwner, header) ==> r == Err(CheckOwner(payloadOwner, header).value)
    ensures OwnerAccepted(payloadOwner, header) && !idPresent ==> r == Err(MissingIdOnUpdate)
  {
    var owner := CheckOwner(payloadOwner, header);
    if owner.Some? then Err(owner.value)
    else if idPresent then Ok(())
    else Err(MissingIdOnUpdate)
  }
}
