/**
 * The number normalisation at the head of `build_wa_link`: the tutor's WhatsApp contact (or,
 * failing that, the phone number) becomes a `https://wa.me/` link, either kept as it is when it
 * already is one, or rebuilt from the digits of the number.
 */
module WaLink {
  import opened Opt
  import opened Text

  /** The link prefix the bot normalises every contact to. */
  const WaPrefix: string := "https://wa.me/"

  /**
   * The `contact` entry of a tutor record. A key that is absent (or holds `None`) is `None`
   * here; the source treats an empty string the same way, since `or` skips falsy values.
   */
  datatype Contact = Contact(whatsapp: Option<string>, phone: Option<string>)

  /** Python's `x or default` on an optional string: the value when present and non-empty. */
  function OrElse(x: Option<string>, default: string): (r: string)
    ensures x.Some? && x.value != "" ==> r == x.value
    ensures x.None? || x.value == "" ==> r == default
  {
    if x.Some? && x.value != "" then x.value else default
  }

  /** The number to link: the WhatsApp entry when non-empty, else the phone entry, else nothing, with whitespace stripped. */
  function RawNumber(c: Contact): string {
    Strip(OrElse(c.whatsapp, OrElse(c.phone, "")))
  }

  /** `re.sub(r"\D+", "", s)`: the digits of `s`, in their order. */
  function Digits(s: string): (r: string)
    ensures |r| <= |s|
    ensures forall i :: 0 <= i < |r| ==> IsDigit(r[i])
  {
    if s == [] then []
    else (if IsDigit(s[0]) then [s[0]] else []) + Digits(s[1..])
  }

  /**
   * The link base: the number itself when it already starts with the prefix, otherwise the
   * prefix followed by its digits (`"https://wa.me/"` alone when there are none).
   */
  function Normalise(wa: string): (r: string)
    ensures StartsWith(r, WaPrefix)
    ensures StartsWith(wa, WaPrefix) ==> r == wa
    ensures !StartsWith(wa, WaPrefix) ==> r == WaPrefix + Digits(wa)
  {
    if StartsWith(wa, WaPrefix) then wa
    else
      var num := Digits(wa);
      if num != [] then WaPrefix + num else WaPrefix
  }

  /** The base of the tutor's WhatsApp link. */
  function LinkBase(c: Contact): (r: string)
    ensures StartsWith(r, WaPrefix)
  {
    Normalise(RawNumber(c))
  }

  /** Digits distribute over concatenation. */
  lemma {:induction false} DigitsAppend(a: string, b: string)
    ensures Digits(a + b) == Digits(a) + Digits(b)
    decreases |a|
  {
    if a == [] {
      assert a + b == b;
    } else {
      assert (a + b)[0] == a[0];
      assert (a + b)[1..] == a[1..] + b;
      DigitsAppend(a[1..], b);
    }
  }

  /** A character survives exactly when it is a digit of the input. */
  lemma {:induction false} DigitsMembers(s: string, ch: char)
    ensures ch in Digits(s) <==> ch in s && IsDigit(ch)
    decreases |s|
  {
    if s != [] {
      DigitsMembers(s[1..], ch);
      assert s == [s[0]] + s[1..];
    }
  }

  /** A string of digits is left as it is. */
  lemma {:induction false} DigitsOfDigits(s: string)
    requires forall i :: 0 <= i < |s| ==> IsDigit(s[i])
    ensures Digits(s) == s
    decreases |s|
  {
    if s != [] {
      DigitsOfDigits(s[1..]);
    }
  }

  /** Normalising a link base again changes nothing. */
  lemma NormaliseIdempotent(wa: string)
    ensures Normalise(Normalise(wa)) == Normalise(wa)
  {
  }

  /**
   * Without the prefix, the rebuilt link is the prefix followed by digits only: every digit of
   * the number is kept, in order, and nothing else is.
   */
  lemma RebuiltFromDigits(wa: string, ch: char)
    requires !StartsWith(wa, WaPrefix)
    ensures Normalise(wa)[..|WaPrefix|] == WaPrefix
    ensures Digits(Normalise(wa)[|WaPrefix|..]) == Normalise(wa)[|WaPrefix|..]
    ensures ch in Normalise(wa)[|WaPrefix|..] <==> ch in wa && IsDigit(ch)
  {
    var tail := Normalise(wa)[|WaPrefix|..];
    assert tail == Digits(wa);
    DigitsOfDigits(tail);
    DigitsMembers(wa, ch);
  }

  /** Formatting punctuation around a number does not change the digits a link is built from. */
  lemma PunctuationIgnored(a: string, b: string, p: string)
    requires forall i :: 0 <= i < |p| ==> !IsDigit(p[i])
    ensures Digits(a + p + b) == Digits(a + b)
  {
    DigitsAppend(a + p, b);
    DigitsAppend(a, p);
    DigitsAppend(a, b);
    NoDigits(p);
    assert Digits(a) + [] == Digits(a);
  }

  lemma {:induction false} NoDigits(p: string)
    requires forall i :: 0 <= i < |p| ==> !IsDigit(p[i])
    ensures Digits(p) == []
    decreases |p|
  {
    if p != [] {
      NoDigits(p[1..]);
    }
  }

  /** The WhatsApp entry wins when it is non-empty; otherwise the phone number is used. */
  lemma ContactChoice(c: Contact)
    ensures c.whatsapp.Some? && c.whatsapp.value != "" ==> RawNumber(c) == Strip(c.whatsapp.value)
    ensures (c.whatsapp.None? || c.whatsapp.value == "") && c.phone.Some? && c.phone.value != ""
      ==> RawNumber(c) == Strip(c.phone.value)
    ensures (c.whatsapp.None? || c.whatsapp.value == "") && (c.phone.None? || c.phone.value == "")
      ==> LinkBase(c) == WaPrefix
  {
    if (c.whatsapp.None? || c.whatsapp.value == "") && (c.phone.None? || c.phone.value == "") {
      assert RawNumber(c) == Strip("");
      assert Strip("") == "";
      assert Digits("") == "";
    }
  }
}
