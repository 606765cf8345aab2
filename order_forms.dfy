/**
 * The checkout form's own checks: the customer name, the phone number, the
 * e-mail address with its domain allow-list and typo suggestions, and the
 * zone a delivery needs.
 *
 * The checks Django's fields run first (required, `max_length`, the e-mail
 * syntax validator) are library code; each function here starts from the
 * value the field passed on. The fuzzy match of `difflib.get_close_matches`
 * is library code too: callers pass in what it returned.
 */
module OrderForms {
  import opened Wrappers
  import opened Schema
  import Text

  /** The form errors these checks raise. */
  datatype FieldError =
    | NameRequired                     // "El nombre es obligatorio."
    | PhoneInvalid                     // "Teléfono inválido. Usa solo números (7 a 15 dígitos)."
    | EmailRequired                    // "El correo es obligatorio."
    | EmailDidYouMean(address: string) // "Correo inválido. ¿Quisiste decir …?"
    | EmailInvalid                     // "Correo inválido. Usa gmail, hotmail, outlook, live o msn."

  // ---------------------------------------------------------------------------
  // Name

  /** `clean_customer_name`: the stripped name, refused when nothing but white space is left. */
  function CleanName(raw: string): (r: Result<string, FieldError>)
    ensures r.Ok? ==> r.value == Text.Strip(raw) && r.value != []
    ensures r.Err? ==> r.error == NameRequired
  {
    var v := Text.Strip(raw);
    if v == [] then Err(NameRequired) else Ok(v)
  }

  /** A name is refused exactly when it is white space only; a cleaned name cleans to itself. */
  lemma CleanNameSpec(raw: string)
    ensures CleanName(raw).Err? <==> forall i :: 0 <= i < |raw| ==> Text.IsSpace(raw[i])
    ensures CleanName(raw).Ok? ==> CleanName(CleanName(raw).value) == CleanName(raw)
  {
    Text.StripFacts(raw);
    Text.StripIdempotent(raw);
  }

  // ---------------------------------------------------------------------------
  // Phone

  /** `re.sub(r"\D", "", s)` on ASCII digits: every other character is dropped. */
  function KeepDigits(s: string): (r: string)
    ensures |r| <= |s|
    ensures forall i :: 0 <= i < |r| ==> Text.IsDigit(r[i])
    decreases |s|
  {
    if s == [] then []
    else KeepDigits(s[..|s| - 1]) + (if Text.IsDigit(s[|s| - 1]) then [s[|s| - 1]] else [])
  }

  lemma {:induction false} KeepDigitsAppend(a: string, b: string)
    ensures KeepDigits(a + b) == KeepDigits(a) + KeepDigits(b)
    decreases |b|
  {
    if b == [] {
      assert a + b == a;
    } else {
      assert (a + b)[..|a + b| - 1] == a + b[..|b| - 1];
      KeepDigitsAppend(a, b[..|b| - 1]);
    }
  }

  /** A text of digits only keeps all of them. */
  lemma {:induction false} KeepDigitsOfDigits(s: string)
    requires forall i :: 0 <= i < |s| ==> Text.IsDigit(s[i])
    ensures KeepDigits(s) == s
    decreases |s|
  {
    if s != [] {
      var init := s[..|s| - 1];
      assert forall i :: 0 <= i < |init| ==> init[i] == s[i];
      KeepDigitsOfDigits(init);
      assert init + [s[|s| - 1]] == s;
    }
  }

  /** `lstrip` drops only white space, which keeps no digit. */
  lemma {:induction false} KeepDigitsStripLeft(s: string)
    ensures KeepDigits(Text.StripLeft(s)) == KeepDigits(s)
    decreases |s|
  {
    if |s| > 0 && Text.IsSpace(s[0]) {
      KeepDigitsStripLeft(s[1..]);
      KeepDigitsAppend([s[0]], s[1..]);
      assert [s[0]] + s[1..] == s;
      assert [s[0]][..0] == [];
    }
  }

  /** `rstrip` drops only white space, which keeps no digit. */
  lemma {:induction false} KeepDigitsStripRight(s: string)
    ensures KeepDigits(Text.StripRight(s)) == KeepDigits(s)
    decreases |s|
  {
    if |s| > 0 && Text.IsSpace(s[|s| - 1]) {
      KeepDigitsStripRight(s[..|s| - 1]);
    }
  }

  /** Stripping first changes no digit: the white space it drops is not a digit. */
  lemma KeepDigitsStrip(raw: string)
    ensures KeepDigits(Text.Strip(raw)) == KeepDigits(raw)
  {
    KeepDigitsStripLeft(raw);
    KeepDigitsStripRight(Text.StripLeft(raw));
  }

  /**
   * `clean_customer_phone`: strip, drop every non-digit, and accept the
   * digits that remain when there are 7 to 15 of them.
   */
  function CleanPhone(raw: string): (r: Result<string, FieldError>)
    ensures r.Ok? ==> 7 <= |r.value| <= 15 && forall i :: 0 <= i < |r.value| ==> Text.IsDigit(r.value[i])
    ensures r.Err? ==> r.error == PhoneInvalid
  {
    var digits := KeepDigits(Text.Strip(raw));
    if 7 <= |digits| <= 15 then Ok(digits) else Err(PhoneInvalid)
  }

  /**
   * A phone is accepted exactly when it holds 7 to 15 digits, wherever they
   * are, and the cleaned value is those digits in order; it cleans to itself.
   */
  lemma CleanPhoneSpec(raw: string)
    ensures CleanPhone(raw).Ok? <==> 7 <= |KeepDigits(raw)| <= 15
    ensures CleanPhone(raw).Ok? ==> CleanPhone(raw).value == KeepDigits(raw)
    ensures CleanPhone(raw).Ok? ==> CleanPhone(CleanPhone(raw).value) == CleanPhone(raw)
  {
    KeepDigitsStrip(raw);
    var d := KeepDigits(raw);
    if 7 <= |d| <= 15 {
      KeepDigitsStrip(d);
      KeepDigitsOfDigits(d);
    }
  }

  // ---------------------------------------------------------------------------
  // E-mail

  /** `ALLOWED_EMAIL_DOMAINS`. */
  const AllowedDomains: set<string> :=
    {"gmail.com", "hotmail.com", "hotmail.es", "outlook.com", "outlook.es", "live.com", "live.es", "msn.com", "msn.es"}

  /** The fixed typo table of `_suggest_email_domain`. */
  const CommonTypos: map<string, string> := map[
    "gmal.com" := "gmail.com",
    "gmai.com" := "gmail.com",
    "gmail.con" := "gmail.com",
    "hotmial.com" := "hotmail.com",
    "hotmil.com" := "hotmail.com",
    "outlok.com" := "outlook.com",
    "outllok.com" := "outlook.com",
    "lve.com" := "live.com"]

  /**
   * `_suggest_email_domain`: the domain lower-cased and stripped; nothing for
   * an empty one, the table's fix for a known typo, else the fuzzy match.
   */
  function SuggestDomain(domain: string, fuzzy: Option<string>): (r: Option<string>)
    ensures Text.Strip(Text.Lower(domain)) == [] ==> r == None
    ensures Text.Strip(Text.Lower(domain)) in CommonTypos ==> r == Some(CommonTypos[Text.Strip(Text.Lower(domain))])
    ensures var d := Text.Strip(Text.Lower(domain)); d != [] && d !in CommonTypos ==> r == fuzzy
  {
    var d := Text.Strip(Text.Lower(domain));
    if d == [] then None
    else if d in CommonTypos then Some(CommonTypos[d])
    else fuzzy
  }

  /** Every fix in the typo table is an allowed domain, and no typo is. */
  lemma TyposFixToAllowed()
    ensures forall d :: d in CommonTypos ==> CommonTypos[d] in AllowedDomains && d !in AllowedDomains
  {
  }

  /** A text without upper-case ASCII letters is its own lower case. */
  lemma LowerUnchanged(s: string)
    requires forall i :: 0 <= i < |s| ==> !('A' <= s[i] <= 'Z')
    ensures Text.Lower(s) == s
  {
  }

  /** Every typo in the table, as it is written, gets the table's fix; a blank domain gets nothing. */
  lemma TypoSuggestions(fuzzy: Option<string>)
    ensures forall d :: d in CommonTypos ==> SuggestDomain(d, fuzzy) == Some(CommonTypos[d])
    ensures SuggestDomain("", fuzzy) == None
  {
    forall d | d in CommonTypos
      ensures SuggestDomain(d, fuzzy) == Some(CommonTypos[d])
    {
      TypoIsPlain(d);
    }
    assert Text.Lower("") == "";
  }

  /**
   * `clean_customer_email`: strip and lower-case; refuse an empty address;
   * accept it when the text after the first `@` is an allowed domain;
   * otherwise suggest the local part with a corrected domain, or refuse.
   */
  function CleanEmail(raw: string, fuzzy: Option<string>): (r: Result<string, FieldError>)
    ensures var v := Text.Lower(Text.Strip(raw));
      && (r.Ok? <==> Text.AfterFirst(v, '@') in AllowedDomains)
      && (r.Ok? ==> r.value == v)
      && (v == [] ==> r == Err(EmailRequired))
      && (v != [] && Text.AfterFirst(v, '@') !in AllowedDomains ==>
            var s := SuggestDomain(Text.AfterFirst(v, '@'), fuzzy);
            r == if s.Some? && s.value != [] then Err(EmailDidYouMean(Text.BeforeFirst(v, '@') + "@" + s.value))
                 else Err(EmailInvalid))
  {
    var v := Text.Lower(Text.Strip(raw));
    if v == [] then Err(EmailRequired)
    else
      var domain := Text.AfterFirst(v, '@');
      if domain in AllowedDomains then Ok(v)
      else match SuggestDomain(domain, fuzzy)
        case Some(s) =>
          if s != [] then Err(EmailDidYouMean(Text.BeforeFirst(v, '@') + "@" + s)) else Err(EmailInvalid)
        case None => Err(EmailInvalid)
  }

  /** A known typo after the `@` is answered with the local part and the fixed domain. */
  lemma EmailTypoSuggestion(raw: string, fuzzy: Option<string>)
    requires var v := Text.Lower(Text.Strip(raw));
      Text.AfterFirst(v, '@') in CommonTypos
    ensures var v := Text.Lower(Text.Strip(raw));
      CleanEmail(raw, fuzzy) == Err(EmailDidYouMean(Text.BeforeFirst(v, '@') + "@" + CommonTypos[Text.AfterFirst(v, '@')]))
  {
    var v := Text.Lower(Text.Strip(raw));
    var d := Text.AfterFirst(v, '@');
    TyposFixToAllowed();
    TypoIsPlain(d);
  }

  /** Lower-case ASCII letters and dots only: no white space, no upper case. */
  predicate Plain(s: string) {
    forall i :: 0 <= i < |s| ==> 'a' <= s[i] <= 'z' || s[i] == '.'
  }

  /** The Gmail and Hotmail typos are plain. */
  lemma FirstTyposPlain(d: string)
    requires d == "gmal.com" || d == "gmai.com" || d == "gmail.con" || d == "hotmial.com"
    ensures Plain(d)
  {
  }

  /** The remaining typos are plain. */
  lemma LastTyposPlain(d: string)
    requires d == "hotmil.com" || d == "outlok.com" || d == "outllok.com" || d == "lve.com"
    ensures Plain(d)
  {
  }

  /** Every typo in the table is plain text, and so its own stripped lower case. */
  lemma TypoIsPlain(d: string)
    requires d in CommonTypos
    ensures d != [] && Text.Strip(Text.Lower(d)) == d
  {
    if d == "gmal.com" || d == "gmai.com" || d == "gmail.con" || d == "hotmial.com" {
      FirstTyposPlain(d);
    } else {
      LastTyposPlain(d);
    }
    LowerUnchanged(d);
    Text.StripUnchanged(d);
  }

  /** A cleaned address cleans to itself. */
  lemma CleanEmailIdempotent(raw: string, fuzzy: Option<string>)
    requires CleanEmail(raw, fuzzy).Ok?
    ensures CleanEmail(CleanEmail(raw, fuzzy).value, fuzzy) == CleanEmail(raw, fuzzy)
  {
    var s := Text.Strip(raw);
    var v := Text.Lower(s);
    Text.StripFacts(raw);
    assert v != [];
    Text.LowerCharSpace(s[0]);
    Text.LowerCharSpace(s[|s| - 1]);
    Text.StripUnchanged(v);
    Text.LowerIdempotent(s);
  }

  // ---------------------------------------------------------------------------
  // Delivery zone

  /** `DELIVERY_CHOICES`: the values the form accepts for the delivery mode. */
  predicate IsDeliveryChoice(m: string) {
    m == "pickup" || m == "delivery"
  }

  /** `PAYMENT_CHOICES`: the values the form accepts for the payment method. */
  predicate IsPaymentChoice(m: string) {
    m == "transferencia" || m == "contraentrega"
  }

  /** `clean`: a delivery without a shipping zone is an error on the zone field. */
  function ZoneMissing(deliveryMode: string, zone: Option<Zone>): (missing: bool)
    ensures missing <==> deliveryMode == "delivery" && zone.None?
  {
    deliveryMode == "delivery" && zone.None?
  }
}
