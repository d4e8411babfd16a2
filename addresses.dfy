/** Recipient-list handling of services/mail.py: `_as_list`, `_normalize_address`
    and `_normalize_many`. */
module Addresses {
  import opened MailErrors
  import opened Sequences

  /** The characters Python's `str.isspace()` accepts, which `str.strip()` removes. */
  predicate IsWhitespace(c: char): (b: bool)
    ensures c == ' ' || c == '\t' || c == '\n' || c == '\r' || c == '\U{A0}' || c == '\U{3000}' ==> b
    ensures ('0' <= c <= '9') || ('a' <= c <= 'z') || ('A' <= c <= 'Z') || c == '@' || c == '.' || c == '<' || c == '>' ==> !b
    ensures c == '\U{200B}' || c == '\U{FEFF}' ==> !b
  {
    ('\t' <= c <= '\r') || ('\U{1C}' <= c <= '\U{1F}') || c == ' ' || c == '\U{85}' || c == '\U{A0}'
    || c == '\U{1680}' || ('\U{2000}' <= c <= '\U{200A}') || c == '\U{2028}' || c == '\U{2029}'
    || c == '\U{202F}' || c == '\U{205F}' || c == '\U{3000}'
  }

  /** `not s.strip()`: the string is empty or all whitespace. */
  predicate IsBlank(s: string)
  {
    forall i :: 0 <= i < |s| ==> IsWhitespace(s[i])
  }

  predicate NotBlank(s: string)
  {
    !IsBlank(s)
  }

  /** Python truthiness of a string. */
  predicate NonEmpty(s: string)
  {
    s != ""
  }

  /** A recipient argument. `Several` stands for a list, tuple or set (its
      elements' `str()` forms in iteration order); `Single` for any other
      value, given by its `str()` form. */
  datatype Recipients = Single(text: string) | Several(items: seq<string>)

  /** `_as_list`: the non-blank entries, in order. */
  function AsList(x: Recipients): (r: seq<string>)
    ensures forall i :: 0 <= i < |r| ==> NotBlank(r[i])
    ensures x.Single? ==> (r == [] <==> IsBlank(x.text)) && (r != [] ==> r == [x.text])
    ensures x.Several? ==> |r| <= |x.items| && forall s :: s in r ==> s in x.items
  {
    match x
    case Single(s) => if NotBlank(s) then [s] else []
    case Several(items) => Filter(items, NotBlank)
  }

  /** A collection is handled entry by entry, each entry exactly as a single
      value would be, and the results are concatenated in input order. */
  lemma {:induction false} AsListEntryByEntry(a: seq<string>, b: seq<string>, s: string)
    ensures AsList(Several(a + b)) == AsList(Several(a)) + AsList(Several(b))
    ensures AsList(Several([s])) == AsList(Single(s))
  {
    FilterAppend(a, b, NotBlank);
    assert [s][1..] == [];
  }

  /** A collection keeps every non-blank entry as often as it occurs and drops every blank one. */
  lemma AsListMultiplicity(items: seq<string>, s: string)
    ensures multiset(AsList(Several(items)))[s] == if NotBlank(s) then multiset(items)[s] else 0
  {
    FilterMultiplicity(items, NotBlank, s);
  }

  /** What the `email_validator` package answers for one address. */
  datatype Verdict = Valid(canonical: string) | Invalid(reason: string)

  /** `Unavailable` is the fallback taken when the package cannot be imported. */
  datatype Validator = Unavailable | Available(validate: string -> Verdict)

  /** `_normalize_address`. */
  function NormalizeAddress(v: Validator, address: string): (r: Result<string>)
    ensures address == "" ==> r == Ok("")
    ensures v.Unavailable? ==> r == Ok(address)
    ensures r.Err? <==> address != "" && v.Available? && v.validate(address).Invalid?
    ensures r.Err? ==> r.error == InvalidAddress(address, v.validate(address).reason)
    ensures r.Ok? && address != "" && v.Available? ==> r.value == v.validate(address).canonical
  {
    if address == "" then Ok(address)
    else if v.Available? then
      match v.validate(address)
      case Valid(canonical) => Ok(canonical)
      case Invalid(reason) => Err(InvalidAddress(address, reason))
    else Ok(address)
  }

  /** `_normalize_many`: normalise every non-empty entry, in order; the first rejection aborts. */
  function NormalizeMany(v: Validator, addresses: seq<string>): (r: Result<seq<string>>)
    ensures r.Ok? ==> |r.value| == |Filter(addresses, NonEmpty)|
    ensures r.Err? ==> r.error.InvalidAddress?
    ensures v.Unavailable? ==> r == Ok(Filter(addresses, NonEmpty))
  {
    if addresses == [] then Ok([])
    else if addresses[0] == "" then
      assert Filter(addresses, NonEmpty) == Filter(addresses[1..], NonEmpty);
      NormalizeMany(v, addresses[1..])
    else
      var first :- NormalizeAddress(v, addresses[0]);
      var rest :- NormalizeMany(v, addresses[1..]);
      Ok([first] + rest)
  }

  /** On success there is exactly one output per non-empty input, at the same
      position among the non-empty inputs, and it is that input normalised. */
  lemma {:induction false} NormalizeManyPointwise(v: Validator, addresses: seq<string>)
    requires NormalizeMany(v, addresses).Ok?
    ensures var kept, out := Filter(addresses, NonEmpty), NormalizeMany(v, addresses).value;
      |out| == |kept| && forall k :: 0 <= k < |kept| ==> NormalizeAddress(v, kept[k]) == Ok(out[k])
  {
    if addresses != [] {
      NormalizeManyPointwise(v, addresses[1..]);
    }
  }

  /** Empty entries are skipped without being looked at. */
  lemma {:induction false} NormalizeManySkipsEmpty(v: Validator, addresses: seq<string>)
    ensures NormalizeMany(v, addresses) == NormalizeMany(v, Filter(addresses, NonEmpty))
  {
    if addresses != [] {
      NormalizeManySkipsEmpty(v, addresses[1..]);
      var kept := Filter(addresses, NonEmpty);
      if addresses[0] == "" {
        assert kept == Filter(addresses[1..], NonEmpty);
      } else {
        assert kept == [addresses[0]] + Filter(addresses[1..], NonEmpty);
        assert kept != [] && kept[0] == addresses[0] && kept[1..] == Filter(addresses[1..], NonEmpty);
      }
    }
  }

  /** The entry at position `k` of `xs` is rejected by the validator. */
  predicate RejectedAt(v: Validator, xs: seq<string>, k: int)
  {
    0 <= k < |xs| && NormalizeAddress(v, xs[k]).Err?
  }

  /** The list fails exactly when some non-empty entry is rejected, and then
      with the rejection of the first such entry. */
  lemma NormalizeManyFirstRejection(v: Validator, addresses: seq<string>)
    ensures NormalizeMany(v, addresses).Err? <==> exists k :: RejectedAt(v, Filter(addresses, NonEmpty), k)
    ensures NormalizeMany(v, addresses).Err? ==>
      exists k :: RejectedAt(v, Filter(addresses, NonEmpty), k)
        && NormalizeAddress(v, Filter(addresses, NonEmpty)[k]) == Err(NormalizeMany(v, addresses).error)
        && forall j :: 0 <= j < k ==> !RejectedAt(v, Filter(addresses, NonEmpty), j)
  {
    NormalizeManySkipsEmpty(v, addresses);
    FirstRejection(v, Filter(addresses, NonEmpty));
  }

  lemma {:induction false} FirstRejection(v: Validator, xs: seq<string>)
    requires forall i :: 0 <= i < |xs| ==> NonEmpty(xs[i])
    ensures NormalizeMany(v, xs).Err? <==> exists k :: RejectedAt(v, xs, k)
    ensures NormalizeMany(v, xs).Err? ==>
      exists k :: RejectedAt(v, xs, k) && NormalizeAddress(v, xs[k]) == Err(NormalizeMany(v, xs).error)
        && forall j :: 0 <= j < k ==> !RejectedAt(v, xs, j)
  {
    if xs != [] {
      FirstRejection(v, xs[1..]);
      if RejectedAt(v, xs, 0) {
        assert NormalizeAddress(v, xs[0]) == Err(NormalizeMany(v, xs).error);
      } else {
        forall k ensures RejectedAt(v, xs, k + 1) <==> RejectedAt(v, xs[1..], k) {
          if 0 <= k < |xs| - 1 { assert xs[1..][k] == xs[k + 1]; }
        }
        if NormalizeMany(v, xs[1..]).Err? {
          var k :| RejectedAt(v, xs[1..], k) && NormalizeAddress(v, xs[1..][k]) == Err(NormalizeMany(v, xs[1..]).error)
            && forall j :: 0 <= j < k ==> !RejectedAt(v, xs[1..], j);
          assert RejectedAt(v, xs, k + 1);
          forall j | 0 <= j < k + 1 ensures !RejectedAt(v, xs, j) {
            if j > 0 { assert !RejectedAt(v, xs[1..], j - 1); }
          }
        } else {
          forall k | RejectedAt(v, xs, k) ensures false {
            assert RejectedAt(v, xs[1..], k - 1);
          }
        }
      }
    }
  }

  /** Without a validator, normalising a list only drops its empty entries. */
  lemma NormalizeManyWithoutValidator(addresses: seq<string>)
    requires forall i :: 0 <= i < |addresses| ==> addresses[i] != ""
    ensures NormalizeMany(Unavailable, addresses) == Ok(addresses)
  {
    FilterKeepsAll(addresses, NonEmpty);
  }
}
