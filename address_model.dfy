/**
  The `Address` schema: six required fields, `trim` on the four text fields,
  and the pincode and mobile validators `/\d{6}/.test(v)` and
  `/\d{10}/.test(v)`. Neither regular expression is anchored, so each asks
  only for a run of that many consecutive digits somewhere in the value.
*/
module AddressModel {
  import opened Wrappers
  import opened JsStrings

  /** An address document. `None` is a field that is absent or `null`. */
  datatype Address = Address(
    addressLine: Option<string>,
    city: Option<string>,
    state: Option<string>,
    pincode: Option<string>,
    country: Option<string>,
    mobile: Option<string>)

  /** `\d`: an ASCII decimal digit. */
  predicate IsDigit(c: char) {
    '0' <= c <= '9'
  }

  /** `\d{k}` matches at position `i` of `s`. */
  predicate DigitRunAt(s: string, i: int, k: nat) {
    0 <= i && i + k <= |s| && forall j :: i <= j < i + k ==> IsDigit(s[j])
  }

  /** `/\d{k}/.test(s)`: the search tries a match at the start, then further right. */
  predicate ContainsDigitRun(s: string, k: nat)
    decreases |s|
  {
    DigitRunAt(s, 0, k) || (s != [] && ContainsDigitRun(s[1..], k))
  }

  predicate ValidPincode(v: string) {
    ContainsDigitRun(v, 6)
  }

  predicate ValidMobile(v: string) {
    ContainsDigitRun(v, 10)
  }

  /** The number of digits in `s`. */
  function DigitCount(s: string): nat
    decreases |s|
  {
    if s == [] then 0 else (if IsDigit(s[0]) then 1 else 0) + DigitCount(s[1..])
  }

  /** The four text fields hold trimmed values. */
  predicate TextTrimmed(a: Address) {
    && (a.addressLine.Some? ==> IsTrimmed(a.addressLine.value))
    && (a.city.Some? ==> IsTrimmed(a.city.value))
    && (a.state.Some? ==> IsTrimmed(a.state.value))
    && (a.country.Some? ==> IsTrimmed(a.country.value))
  }

  /**
    Runs the `trim` setters: the text fields become trimmed and stay truthy
    exactly when they held a non-whitespace character; pincode and mobile,
    which have no setter, are kept as given.
  */
  function Cast(a: Address): (r: Address)
    ensures TextTrimmed(r)
    ensures r.addressLine == TrimOpt(a.addressLine) && r.city == TrimOpt(a.city)
    ensures r.state == TrimOpt(a.state) && r.country == TrimOpt(a.country)
    ensures r.pincode == a.pincode && r.mobile == a.mobile
    ensures Truthy(r.addressLine) <==> a.addressLine.Some? && !AllWhitespace(a.addressLine.value)
    ensures Truthy(r.city) <==> a.city.Some? && !AllWhitespace(a.city.value)
    ensures Truthy(r.state) <==> a.state.Some? && !AllWhitespace(a.state.value)
    ensures Truthy(r.country) <==> a.country.Some? && !AllWhitespace(a.country.value)
  {
    TrimOptTruthy(a.addressLine);
    TrimOptTruthy(a.city);
    TrimOptTruthy(a.state);
    TrimOptTruthy(a.country);
    a.(addressLine := TrimOpt(a.addressLine),
       city := TrimOpt(a.city),
       state := TrimOpt(a.state),
       country := TrimOpt(a.country))
  }

  /** What `save` accepts: all six fields present and non-empty, and the two digit-run validators. */
  predicate Valid(a: Address) {
    && Truthy(a.addressLine)
    && Truthy(a.city)
    && Truthy(a.state)
    && Truthy(a.pincode) && ValidPincode(a.pincode.value)
    && Truthy(a.country)
    && Truthy(a.mobile) && ValidMobile(a.mobile.value)
  }

  /** A run at position `i` of the tail is a run at position `i + 1` of the whole string. */
  lemma DigitRunShift(s: string, i: int, k: nat)
    requires s != [] && i >= 0
    ensures DigitRunAt(s[1..], i, k) <==> DigitRunAt(s, i + 1, k)
  {
    if DigitRunAt(s, i + 1, k) {
      forall j | i <= j < i + k ensures IsDigit(s[1..][j]) {
        assert s[1..][j] == s[j + 1];
      }
    }
  }

  /** Some position of `s` starts a run of `k` digits. */
  ghost predicate HasDigitRun(s: string, k: nat) {
    exists i :: DigitRunAt(s, i, k)
  }

  /** The regex search succeeds exactly when some position starts a run of `k` digits. */
  lemma {:induction false} ContainsDigitRunIff(s: string, k: nat)
    ensures ContainsDigitRun(s, k) <==> HasDigitRun(s, k)
    decreases |s|
  {
    if s != [] {
      ContainsDigitRunIff(s[1..], k);
      if ContainsDigitRun(s[1..], k) {
        var i :| DigitRunAt(s[1..], i, k);
        DigitRunShift(s, i, k);
      }
      if i :| DigitRunAt(s, i, k) {
        if i > 0 {
          DigitRunShift(s, i - 1, k);
        }
      }
    } else {
      if i :| DigitRunAt(s, i, k) {
        assert i == 0;
      }
    }
  }

  /** A run of `k` digits contains a run of any shorter length `m`. */
  lemma {:induction false} DigitRunMonotone(s: string, k: nat, m: nat)
    requires m <= k
    requires ContainsDigitRun(s, k)
    ensures ContainsDigitRun(s, m)
    decreases |s|
  {
    if !DigitRunAt(s, 0, k) {
      DigitRunMonotone(s[1..], k, m);
    }
  }

  /** Every value the mobile validator accepts also passes the pincode validator. */
  lemma MobileImpliesPincode(v: string)
    requires ValidMobile(v)
    ensures ValidPincode(v)
  {
    DigitRunMonotone(v, 10, 6);
  }

  /** A run of `k` digits at the start of `s` means `s` has at least `k` digits. */
  lemma {:induction false} PrefixRunCount(s: string, k: nat)
    requires DigitRunAt(s, 0, k)
    ensures DigitCount(s) >= k
    decreases k
  {
    if k > 0 {
      DigitRunShift(s, 0, k - 1);
      PrefixRunCount(s[1..], k - 1);
    }
  }

  /** A value the search accepts holds at least `k` digits. */
  lemma {:induction false} RunNeedsDigits(s: string, k: nat)
    requires ContainsDigitRun(s, k)
    ensures DigitCount(s) >= k
    decreases |s|
  {
    if DigitRunAt(s, 0, k) {
      PrefixRunCount(s, k);
    } else {
      RunNeedsDigits(s[1..], k);
    }
  }

  /** A value with fewer than six digits, however they are placed, is not a valid pincode. */
  lemma FewDigitsInvalidPincode(v: string)
    requires DigitCount(v) < 6
    ensures !ValidPincode(v)
  {
    if ValidPincode(v) {
      RunNeedsDigits(v, 6);
    }
  }

  /** Six digits and nothing else make a valid pincode. */
  lemma SixDigitsValidPincode(v: string)
    requires |v| == 6 && forall j :: 0 <= j < 6 ==> IsDigit(v[j])
    ensures ValidPincode(v)
  {
    assert DigitRunAt(v, 0, 6);
  }

  /**
    Because the regular expression is not anchored, any text before or after
    a six-digit run is accepted: a seven-digit value, or letters followed by
    six digits.
  */
  lemma UnanchoredPincode(before: string, digits: string, after: string)
    requires |digits| == 6 && forall j :: 0 <= j < 6 ==> IsDigit(digits[j])
    ensures ValidPincode(before + digits + after)
  {
    var v := before + digits + after;
    assert DigitRunAt(v, |before|, 6) by {
      forall j | |before| <= j < |before| + 6 ensures IsDigit(v[j]) {
        assert v[j] == digits[j - |before|];
      }
    }
    ContainsDigitRunIff(v, 6);
  }

  /** Two digit groups of three separated by a non-digit hold six digits but no pincode. */
  lemma SplitGroupsInvalidPincode(a: string, sep: char, b: string)
    requires |a| == 3 && |b| == 3 && !IsDigit(sep)
    ensures !ValidPincode(a + [sep] + b)
  {
    var v := a + [sep] + b;
    ContainsDigitRunIff(v, 6);
    forall i | 0 <= i <= 1 ensures !DigitRunAt(v, i, 6) {
      assert v[3] == sep;
    }
  }

  /** A value that is present and passes a digit-run validator: one holding a run of `k > 0` digits. */
  lemma RunValidatorIff(v: string, k: nat)
    requires k > 0
    ensures Truthy(Some(v)) && ContainsDigitRun(v, k) <==> HasDigitRun(v, k)
  {
    ContainsDigitRunIff(v, k);
    if HasDigitRun(v, k) {
      var i :| DigitRunAt(v, i, k);
      assert i < |v|;
    }
  }

  /**
    The address a request builds is valid exactly when its four text fields
    hold a non-whitespace character, the pincode holds six consecutive digits
    and the mobile ten, surrounding text and spaces included.
  */
  lemma CastValid(a: Address)
    ensures Valid(Cast(a))
        <==> && a.addressLine.Some? && !AllWhitespace(a.addressLine.value)
             && a.city.Some? && !AllWhitespace(a.city.value)
             && a.state.Some? && !AllWhitespace(a.state.value)
             && a.country.Some? && !AllWhitespace(a.country.value)
             && a.pincode.Some? && HasDigitRun(a.pincode.value, 6)
             && a.mobile.Some? && HasDigitRun(a.mobile.value, 10)
  {
    if a.pincode.Some? { RunValidatorIff(a.pincode.value, 6); }
    if a.mobile.Some? { RunValidatorIff(a.mobile.value, 10); }
  }
}
