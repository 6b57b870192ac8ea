/** `Index.GetViberUrl`: the deep link that opens a Viber chat with a phone
    number, after the number has been brought into international form for
    Ukraine (country calling code 380 of ITU-T E.164, national trunk prefix 0). */
module Viber {

  const ChatPrefix: string := "viber://chat?number="
  const CountryCode: string := "380"
  const InternalCountryCode: string := "0"

  /** The white-space characters trimming removes (a subset of the ones .NET
      recognises: space, tab, line feed, vertical tab, form feed, carriage
      return, no-break space). */
  predicate IsWhiteSpace(c: char)
  {
    c == ' ' || c == '\t' || c == '\n' || c == '\U{B}' || c == '\U{C}' || c == '\r' || c == '\U{A0}'
  }

  predicate AllWhiteSpace(s: string)
  {
    forall i :: 0 <= i < |s| ==> IsWhiteSpace(s[i])
  }

  /** The first index at or after `i` that does not hold white space, or |s|. */
  function SkipWhiteSpace(s: string, i: nat): (k: nat)
    requires i <= |s|
    ensures i <= k <= |s|
    ensures forall m :: i <= m < k ==> IsWhiteSpace(s[m])
    ensures k < |s| ==> !IsWhiteSpace(s[k])
    decreases |s| - i
  {
    if i < |s| && IsWhiteSpace(s[i]) then SkipWhiteSpace(s, i + 1) else i
  }

  /** Scanning back from `j`, no further than `lo`: the smallest k such that
      s[k..j] is all white space, so that s[k - 1] is not white space unless
      k == lo. */
  function SkipWhiteSpaceBack(s: string, lo: nat, j: nat): (k: nat)
    requires lo <= j <= |s|
    ensures lo <= k <= j
    ensures forall m :: k <= m < j ==> IsWhiteSpace(s[m])
    ensures lo < k ==> !IsWhiteSpace(s[k - 1])
    decreases j
  {
    if lo < j && IsWhiteSpace(s[j - 1]) then SkipWhiteSpaceBack(s, lo, j - 1) else j
  }

  /** `string.Trim()`: the result is the part of `s` between its leading and
      its trailing white space, and it neither starts nor ends with white space. */
  function Trim(s: string): (r: string)
    ensures exists i, j :: (0 <= i <= j <= |s| && r == s[i..j] &&
      (forall m :: 0 <= m < i ==> IsWhiteSpace(s[m])) &&
      (forall m :: j <= m < |s| ==> IsWhiteSpace(s[m])))
    ensures r == [] || (!IsWhiteSpace(r[0]) && !IsWhiteSpace(r[|r| - 1]))
  {
    var i := SkipWhiteSpace(s, 0);
    var j := SkipWhiteSpaceBack(s, i, |s|);
    s[i..j]
  }

  /** Trim is determined by its contract: any non-empty infix that has only
      white space around it and none at its ends is the trimmed string. */
  lemma TrimIsUnique(s: string, i: nat, j: nat)
    requires i < j <= |s|
    requires forall m :: 0 <= m < i ==> IsWhiteSpace(s[m])
    requires forall m :: j <= m < |s| ==> IsWhiteSpace(s[m])
    requires !IsWhiteSpace(s[i]) && !IsWhiteSpace(s[j - 1])
    ensures Trim(s) == s[i..j]
  {
    var a := SkipWhiteSpace(s, 0);
    assert a == i;
    var b := SkipWhiteSpaceBack(s, a, |s|);
    assert b == j;
  }

  /** A string of white space only trims to the empty string. */
  lemma TrimAllWhiteSpace(s: string)
    requires AllWhiteSpace(s)
    ensures Trim(s) == []
  {
    var a := SkipWhiteSpace(s, 0);
    assert a == |s|;
  }

  /** A string with some character that is not white space trims to a
      non-empty string. */
  lemma TrimNotAllWhiteSpace(s: string, n: nat)
    requires n < |s| && !IsWhiteSpace(s[n])
    ensures Trim(s) != []
  {
    var a := SkipWhiteSpace(s, 0);
    assert a <= n;
    var b := SkipWhiteSpaceBack(s, a, |s|);
    assert a < b;
  }

  predicate StartsWith(s: string, prefix: string)
  {
    |prefix| <= |s| && s[..|prefix|] == prefix
  }

  /** The number after the two prefix rules; both test the trimmed number, so
      the second assignment overrides the first only if both held. */
  function FullPhoneNumber(trimmed: string): string
  {
    var full := if StartsWith(trimmed, "+") then trimmed[1..] else trimmed;
    if StartsWith(trimmed, InternalCountryCode) then CountryCode + trimmed[1..] else full
  }

  function GetViberUrl(phoneNumber: string): (url: string)
    ensures StartsWith(url, ChatPrefix)
  {
    ChatPrefix + FullPhoneNumber(Trim(phoneNumber))
  }

  /** The three cases of the normalisation: a leading '+' is dropped, a
      leading '0' becomes the country code, anything else is kept, and only
      the first character is ever affected. */
  lemma FullPhoneNumberCases(t: string)
    ensures t != [] && t[0] == '+' ==> FullPhoneNumber(t) == t[1..]
    ensures t != [] && t[0] == '0' ==> FullPhoneNumber(t) == "380" + t[1..]
    ensures t == [] || (t[0] != '+' && t[0] != '0') ==> FullPhoneNumber(t) == t
  {
    if t != [] {
      assert StartsWith(t, "+") <==> t[0] == '+';
      assert StartsWith(t, "0") <==> t[0] == '0';
    }
  }

  /** A Ukrainian number written internationally ("+380…") and nationally
      ("0…") opens the same chat. */
  lemma InternationalAndNationalAgree(subscriber: string)
    ensures FullPhoneNumber("+380" + subscriber) == FullPhoneNumber("0" + subscriber) == "380" + subscriber
  {
    FullPhoneNumberCases("+380" + subscriber);
    FullPhoneNumberCases("0" + subscriber);
    assert ("+380" + subscriber)[1..] == "380" + subscriber;
    assert ("0" + subscriber)[1..] == subscriber;
  }

  predicate IsDigit(c: char)
  {
    '0' <= c <= '9'
  }

  /** The normalised number of a digit string, optionally written with a
      leading '+', is a digit string; the national form gains two digits. */
  lemma FullPhoneNumberDigits(t: string)
    requires t != [] && (t[0] == '+' || IsDigit(t[0]))
    requires forall i :: 1 <= i < |t| ==> IsDigit(t[i])
    ensures var r := FullPhoneNumber(t);
      (forall i :: 0 <= i < |r| ==> IsDigit(r[i])) &&
      |r| == if t[0] == '+' then |t| - 1 else if t[0] == '0' then |t| + 2 else |t|
  {
    FullPhoneNumberCases(t);
  }

  /** Padding a string of white space only gives white space only. */
  lemma PaddedWhiteSpace(lead: string, s: string, trail: string)
    requires AllWhiteSpace(lead) && AllWhiteSpace(s) && AllWhiteSpace(trail)
    ensures AllWhiteSpace(lead + s + trail)
  {
    var u := lead + s + trail;
    forall m | 0 <= m < |u| ensures IsWhiteSpace(u[m]) {
      if m < |lead| {
        assert u[m] == lead[m];
      } else if m < |lead| + |s| {
        assert u[m] == s[m - |lead|];
      } else {
        assert u[m] == trail[m - |lead| - |s|];
      }
    }
  }

  /** White space around s[i..j] stays white space once s is padded, and
      the infix itself moves by the length of the leading padding. */
  lemma PaddedSurround(u: string, lead: string, s: string, trail: string, i: nat, j: nat)
    requires u == lead + s + trail
    requires AllWhiteSpace(lead) && AllWhiteSpace(trail)
    requires i <= j <= |s|
    requires forall m :: 0 <= m < i ==> IsWhiteSpace(s[m])
    requires forall m :: j <= m < |s| ==> IsWhiteSpace(s[m])
    ensures forall m :: 0 <= m < |lead| + i ==> IsWhiteSpace(u[m])
    ensures forall m :: |lead| + j <= m < |u| ==> IsWhiteSpace(u[m])
    ensures u[|lead| + i..|lead| + j] == s[i..j]
  {
    var l, n := |lead|, |s|;
    forall m | 0 <= m < l + i ensures IsWhiteSpace(u[m]) {
      if m < l {
        assert u[m] == lead[m];
      } else {
        assert u[m] == s[m - l];
      }
    }
    forall m | l + j <= m < |u| ensures IsWhiteSpace(u[m]) {
      if m < l + n {
        assert u[m] == s[m - l];
      } else {
        assert u[m] == trail[m - l - n];
      }
    }
    var v, w := u[l + i..l + j], s[i..j];
    forall m | 0 <= m < j - i ensures v[m] == w[m] {
      assert v[m] == u[l + i + m] == s[i + m];
    }
  }

  /** The padding lemma for a string that is not all white space: its
      trimmed part is found again inside the padded string. */
  lemma TrimPaddedNonBlank(u: string, lead: string, s: string, trail: string, x: nat)
    requires u == lead + s + trail
    requires AllWhiteSpace(lead) && AllWhiteSpace(trail)
    requires x < |s| && !IsWhiteSpace(s[x])
    ensures Trim(u) == Trim(s)
  {
    TrimNotAllWhiteSpace(s, x);
    var i := SkipWhiteSpace(s, 0);
    var j := SkipWhiteSpaceBack(s, i, |s|);
    PaddedSurround(u, lead, s, trail, i, j);
    assert u[|lead| + i] == s[i] && u[|lead| + j - 1] == s[j - 1];
    TrimIsUnique(u, |lead| + i, |lead| + j);
  }

  /** Surrounding white space never changes the trimmed string. */
  lemma TrimIgnoresPadding(lead: string, s: string, trail: string)
    requires AllWhiteSpace(lead) && AllWhiteSpace(trail)
    ensures Trim(lead + s + trail) == Trim(s)
  {
    if AllWhiteSpace(s) {
      PaddedWhiteSpace(lead, s, trail);
      TrimAllWhiteSpace(lead + s + trail);
      TrimAllWhiteSpace(s);
    } else {
      var x :| 0 <= x < |s| && !IsWhiteSpace(s[x]);
      TrimPaddedNonBlank(lead + s + trail, lead, s, trail, x);
    }
  }

  /** Surrounding white space never changes the link. */
  lemma ViberUrlIgnoresPadding(lead: string, phoneNumber: string, trail: string)
    requires AllWhiteSpace(lead) && AllWhiteSpace(trail)
    ensures GetViberUrl(lead + phoneNumber + trail) == GetViberUrl(phoneNumber)
  {
    TrimIgnoresPadding(lead, phoneNumber, trail);
  }

  /** A number with no white space at either end is left as it is by trimming. */
  lemma TrimUnpadded(s: string)
    requires s == [] || (!IsWhiteSpace(s[0]) && !IsWhiteSpace(s[|s| - 1]))
    ensures Trim(s) == s
  {
    if s != [] {
      TrimIsUnique(s, 0, |s|);
      assert s[0..|s|] == s;
    }
  }

  /** For a number with no white space at either end, the link is the chat
      prefix followed by the number with its first-character rule applied. */
  lemma ViberUrlUnpadded(n: string)
    requires n != [] && !IsWhiteSpace(n[0]) && !IsWhiteSpace(n[|n| - 1])
    ensures n[0] == '+' ==> GetViberUrl(n) == ChatPrefix + n[1..]
    ensures n[0] == '0' ==> GetViberUrl(n) == ChatPrefix + (CountryCode + n[1..])
    ensures n[0] != '+' && n[0] != '0' ==> GetViberUrl(n) == ChatPrefix + n
  {
    TrimUnpadded(n);
    FullPhoneNumberCases(n);
  }

  /** Three worked examples: international, national and bare forms. */
  lemma ViberUrlInternationalExample()
    ensures GetViberUrl("+380991234567") == "viber://chat?number=380991234567"
  {
    var n := "+380991234567";
    assert n[0] == '+' && n[|n| - 1] == '7' && n[1..] == "380991234567";
    ViberUrlUnpadded(n);
    assert ChatPrefix + "380991234567" == "viber://chat?number=380991234567";
  }

  lemma ViberUrlNationalExample()
    ensures GetViberUrl("0991234567") == "viber://chat?number=380991234567"
  {
    var n := "0991234567";
    assert n[0] == '0' && n[|n| - 1] == '7' && n[1..] == "991234567";
    ViberUrlUnpadded(n);
    assert CountryCode + "991234567" == "380991234567";
    assert ChatPrefix + "380991234567" == "viber://chat?number=380991234567";
  }

  lemma ViberUrlBareExample()
    ensures GetViberUrl("991234567") == "viber://chat?number=991234567"
  {
    var n := "991234567";
    assert n[0] == '9' && n[|n| - 1] == '7';
    ViberUrlUnpadded(n);
    assert ChatPrefix + n == "viber://chat?number=991234567";
  }
}
