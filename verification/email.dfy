/**
 * The custom e-mail canonicaliser of the user manager
 * (`UserManager.normalize_email`): lower-case and strip the address, cut
 * the local part at its first `+`, fold the Yandex domains together and
 * drop the dots Gmail ignores.
 */
module EmailNormalization {
  import opened Wrappers
  import opened Text

  /** Unpacking `split('@')` into two names raises `ValueError` when the address has more than one `@`. */
  datatype NormalizeError = TooManyAtSigns

  /** The local part up to (not including) its first `+`. */
  function DropTag(local: string): (r: string)
    ensures '+' !in r
    ensures |r| <= |local| && r == local[..|r|]
    ensures '+' !in local ==> r == local
    ensures '+' in local ==> |r| < |local| && local[|r|] == '+'
  {
    var i := IndexOf(local, '+');
    if i >= 0 then local[..i] else local
  }

  predicate IsYandex(domain: string) {
    domain == "ya.ru" || domain == "yandex.ru"
  }

  /** The local part written for a `+`-free user name: Yandex turns dots into dashes, Gmail drops them. */
  function LocalOf(user: string, domain: string): string {
    if IsYandex(domain) then ReplaceChar(user, '.', '-')
    else if domain == "gmail.com" then RemoveChar(user, '.')
    else user
  }

  /** The domain written: both Yandex domains become `yandex.ru`, any other is kept. */
  function DomainOf(domain: string): string {
    if IsYandex(domain) then "yandex.ru" else domain
  }

  /** The address rebuilt from its lower-cased, stripped local part and domain. */
  function Canonical(local: string, domain: string): string {
    LocalOf(DropTag(local), domain) + "@" + DomainOf(domain)
  }

  function Prepare(email: string): string {
    Strip(Lower(email))
  }

  /** Lower-casing and stripping neither add nor remove an `@`. */
  lemma PrepareKeepsAt(email: string)
    ensures multiset(Prepare(email))['@'] == multiset(email)['@']
  {
    LowerKeeps(email, '@');
    StripKeeps(Lower(email), '@');
  }

  /** A prepared address is lower-case and has no whitespace at either end. */
  lemma PrepareShape(email: string)
    ensures IsLower(Prepare(email)) && IsStripped(Prepare(email))
  {
    LowerSlice(Lower(email), |Lower(email)| - |TrimLeft(Lower(email))|, |Lower(email)|);
    LowerSlice(TrimLeft(Lower(email)), 0, |Strip(Lower(email))|);
  }

  /** The two names `normalize_email` unpacks an address into, or the unpacking error. */
  function Unpack(parts: seq<string>): Result<string, NormalizeError> {
    if |parts| != 2 then Err(TooManyAtSigns) else Ok(Canonical(parts[0], parts[1]))
  }

  /** `normalize_email`. */
  function NormalizeEmail(email: string): (r: Result<string, NormalizeError>)
    ensures '@' !in email ==> r == Ok("")
    ensures r.Err? ==> multiset(email)['@'] >= 2
  {
    if |email| == 0 || '@' !in email then Ok("")
    else
      PrepareKeepsAt(email);
      Unpack(Split(Prepare(email), '@'))
  }

  /**
   * The empty string exactly for an input without `@`, the `ValueError`
   * of the two-name unpacking exactly for more than one `@`, and
   * otherwise a lower-case address with exactly one `@`.
   */
  lemma NormalizeEmailShape(email: string)
    ensures var r := NormalizeEmail(email);
      && ((r.Ok? && r.value == "") <==> '@' !in email)
      && (r.Err? <==> multiset(email)['@'] >= 2)
      && (r.Ok? && '@' in email ==> multiset(r.value)['@'] == 1 && IsLower(r.value))
  {
    if '@' in email {
      var parts := Split(Prepare(email), '@');
      PrepareKeepsAt(email);
      if |parts| == 2 {
        PrepareShape(email);
        PartsAreClean(Prepare(email), parts);
        CanonicalShape(parts[0], parts[1]);
      }
    }
  }

  /** The two names unpacked from a prepared address: lower-case, `@`-free, the domain ending in no whitespace. */
  lemma PartsAreClean(t: string, parts: seq<string>)
    requires IsLower(t) && IsStripped(t)
    requires parts == Split(t, '@') && |parts| == 2
    ensures IsLower(parts[0]) && IsLower(parts[1])
    ensures '@' !in parts[0] && '@' !in parts[1]
    ensures parts[1] == [] || !IsSpace(parts[1][|parts[1]| - 1])
  {
    JoinSplit(t, '@');
    assert Join(parts[1..], '@') == parts[1];
    assert t == parts[0] + ['@'] + parts[1];
    forall k | 0 <= k < |parts[0]| ensures !IsUpper(parts[0][k]) {
      assert parts[0][k] == t[k];
    }
    forall k | 0 <= k < |parts[1]| ensures !IsUpper(parts[1][k]) {
      assert parts[1][k] == t[|parts[0]| + 1 + k];
    }
  }

  /** Neither `+`-removal nor the domain rules bring back a capital, an `@` or a `+`. */
  lemma LocalOfClean(user: string, domain: string)
    requires IsLower(user) && '@' !in user && '+' !in user
    ensures IsLower(LocalOf(user, domain))
    ensures '@' !in LocalOf(user, domain) && '+' !in LocalOf(user, domain)
    ensures IsYandex(domain) || domain == "gmail.com" ==> '.' !in LocalOf(user, domain)
  {
    var u' := LocalOf(user, domain);
    if IsYandex(domain) {
      var r := ReplaceChar(user, '.', '-');
      assert u' == r;
      forall k | 0 <= k < |r| ensures !IsUpper(r[k]) && r[k] != '@' && r[k] != '+' {
        ReplaceCharAt(user, '.', '-', k);
        assert !IsUpper(user[k]) && user[k] != '@' && user[k] != '+';
      }
    } else if domain == "gmail.com" {
      var r := RemoveChar(user, '.');
      assert u' == r;
      RemoveCharKeeps(user, '.');
      forall k | 0 <= k < |r| ensures !IsUpper(r[k]) && r[k] != '@' && r[k] != '+' {
        var j :| 0 <= j < |user| && user[j] == r[k];
        assert !IsUpper(user[j]);
      }
    }
  }

  /** An address `u@d` with `@`-free lower-case halves has one `@` and no capital. */
  lemma JoinedShape(u: string, d: string)
    requires IsLower(u) && IsLower(d) && '@' !in u && '@' !in d
    ensures multiset(u + "@" + d)['@'] == 1
    ensures IsLower(u + "@" + d)
  {
    var o := u + "@" + d;
    assert multiset(o) == multiset(u) + multiset{'@'} + multiset(d);
    forall k | 0 <= k < |o| ensures !IsUpper(o[k]) {
      if k < |u| {
        assert o[k] == u[k];
      } else if k > |u| {
        assert o[k] == d[k - |u| - 1];
      }
    }
  }

  lemma DropTagClean(local: string)
    requires IsLower(local) && '@' !in local
    ensures IsLower(DropTag(local)) && '@' !in DropTag(local)
  {
    var user := DropTag(local);
    forall k | 0 <= k < |user| ensures !IsUpper(user[k]) && user[k] != '@' {
      assert user[k] == local[k];
    }
  }

  lemma DomainOfClean(domain: string)
    requires IsLower(domain) && '@' !in domain
    ensures IsLower(DomainOf(domain)) && '@' !in DomainOf(domain)
    ensures domain == [] || !IsSpace(domain[|domain| - 1]) ==>
      var d' := DomainOf(domain); d' == [] || !IsSpace(d'[|d'| - 1])
  {
    if IsYandex(domain) {
      assert DomainOf(domain) == "yandex.ru";
    }
  }

  lemma CanonicalShape(local: string, domain: string)
    requires IsLower(local) && IsLower(domain)
    requires '@' !in local && '@' !in domain
    ensures multiset(Canonical(local, domain))['@'] == 1
    ensures IsLower(Canonical(local, domain))
  {
    DropTagClean(local);
    LocalOfClean(DropTag(local), domain);
    DomainOfClean(domain);
    JoinedShape(LocalOf(DropTag(local), domain), DomainOf(domain));
  }

  /**
   * A canonical address is a fixed point of `normalize_email` as long as
   * it does not begin with whitespace.
   */
  lemma PrepareOfJoined(u: string, d: string)
    requires IsLower(u) && IsLower(d) && '@' !in u && '@' !in d
    requires IsStripped(u + "@" + d)
    ensures Prepare(u + "@" + d) == u + "@" + d
  {
    JoinedShape(u, d);
  }

  lemma SplitOfJoined(u: string, d: string)
    requires '@' !in u && '@' !in d
    ensures Split(u + "@" + d, '@') == [u, d]
  {
    assert Join([u, d], '@') == u + "@" + d by {
      assert Join([u, d][1..], '@') == d;
    }
    SplitJoin([u, d], '@');
  }

  lemma NormalizeOfPrepared(o: string, u: string, d: string)
    requires Prepare(o) == o && '@' in o
    requires Split(o, '@') == [u, d]
    ensures NormalizeEmail(o) == Ok(Canonical(u, d))
  {
  }

  /** Normalising `u@d` with clean halves just canonicalises the halves. */
  lemma NormalizeOfJoined(u: string, d: string)
    requires IsLower(u) && IsLower(d) && '@' !in u && '@' !in d
    requires IsStripped(u + "@" + d)
    ensures NormalizeEmail(u + "@" + d) == Ok(Canonical(u, d))
  {
    var o := u + "@" + d;
    assert '@' in o;
    PrepareOfJoined(u, d);
    SplitOfJoined(u, d);
    NormalizeOfPrepared(o, u, d);
  }

  /** The two halves `Canonical` writes are lower-case, `@`- and `+`-free, and dot-free for Yandex and Gmail. */
  lemma CanonicalHalves(local: string, domain: string)
    requires IsLower(local) && IsLower(domain)
    requires '@' !in local && '@' !in domain
    requires domain == [] || !IsSpace(domain[|domain| - 1])
    ensures var u' := LocalOf(DropTag(local), domain);
      IsLower(u') && '@' !in u' && '+' !in u' && (IsYandex(domain) || domain == "gmail.com" ==> '.' !in u')
    ensures var d' := DomainOf(domain);
      IsLower(d') && '@' !in d' && (d' == [] || !IsSpace(d'[|d'| - 1]))
    ensures Canonical(local, domain) == LocalOf(DropTag(local), domain) + "@" + DomainOf(domain)
  {
    DropTagClean(local);
    LocalOfClean(DropTag(local), domain);
    DomainOfClean(domain);
  }

  lemma CanonicalIsFixed(local: string, domain: string)
    requires IsLower(local) && IsLower(domain)
    requires '@' !in local && '@' !in domain
    requires domain == [] || !IsSpace(domain[|domain| - 1])
    requires !IsSpace(Canonical(local, domain)[0])
    ensures NormalizeEmail(Canonical(local, domain)) == Ok(Canonical(local, domain))
  {
    CanonicalHalves(local, domain);
    var u' := LocalOf(DropTag(local), domain);
    var d' := DomainOf(domain);
    var o := u' + "@" + d';
    assert IsStripped(o) by {
      assert o[|o| - 1] == (if d' == [] then '@' else d'[|d'| - 1]);
    }
    NormalizeOfJoined(u', d');
    SecondPass(u', d', domain);
  }

  /** Re-canonicalising the halves of a canonical address reproduces them. */
  lemma SecondPass(u': string, d': string, domain: string)
    requires '+' !in u'
    requires d' == DomainOf(domain)
    requires IsYandex(domain) || domain == "gmail.com" ==> '.' !in u'
    ensures Canonical(u', d') == u' + "@" + d'
  {
    assert DropTag(u') == u';
    if IsYandex(domain) {
      assert IsYandex(d');
    } else if domain == "gmail.com" {
      assert d' == "gmail.com";
    } else {
      assert d' == domain;
    }
  }

  /**
   * Normalising an already normalised address changes nothing, provided
   * the normalised address does not begin with whitespace (only the Gmail
   * rule can make it so; see `GmailDotExposesSpace`).
   */
  lemma NormalizeIdempotent(email: string)
    requires NormalizeEmail(email).Ok?
    requires var n := NormalizeEmail(email).value; n == [] || !IsSpace(n[0])
    ensures NormalizeEmail(NormalizeEmail(email).value) == NormalizeEmail(email)
  {
    if '@' in email {
      var parts := Split(Prepare(email), '@');
      UnpackedParts(email, parts);
      PrepareShape(email);
      IdempotentOfParts(Prepare(email), parts);
    }
  }

  lemma IdempotentOfParts(t: string, parts: seq<string>)
    requires IsLower(t) && IsStripped(t)
    requires parts == Split(t, '@') && |parts| == 2
    requires !IsSpace(Canonical(parts[0], parts[1])[0])
    ensures var n := Canonical(parts[0], parts[1]); NormalizeEmail(n) == Ok(n)
  {
    PartsAreClean(t, parts);
    CanonicalIsFixed(parts[0], parts[1]);
  }

  /** A single-`@` address normalises to the canonical form of its two prepared halves. */
  lemma UnpackedParts(email: string, parts: seq<string>)
    requires '@' in email && NormalizeEmail(email).Ok?
    requires parts == Split(Prepare(email), '@')
    ensures |parts| == 2
    ensures NormalizeEmail(email) == Ok(Canonical(parts[0], parts[1]))
  {
    TwoParts(email, parts);
    NormalizeOfParts(email, parts);
  }

  lemma TwoParts(email: string, parts: seq<string>)
    requires '@' in email && NormalizeEmail(email).Ok?
    requires parts == Split(Prepare(email), '@')
    ensures |parts| == 2
  {
    PrepareKeepsAt(email);
    assert multiset(email)['@'] >= 1;
  }

  lemma NormalizeOfParts(email: string, parts: seq<string>)
    requires '@' in email
    requires parts == Split(Prepare(email), '@') && |parts| == 2
    ensures NormalizeEmail(email) == Ok(Canonical(parts[0], parts[1]))
  {
  }

  /** An input that prepares to `u@d` with `@`-free halves normalises to their canonical form. */
  lemma NormalizeOfPreparedJoin(e: string, u: string, d: string)
    requires '@' !in u && '@' !in d
    requires Prepare(e) == u + "@" + d
    ensures NormalizeEmail(e) == Ok(Canonical(u, d))
  {
    PrepareKeepsAt(e);
    assert (u + "@" + d)[|u|] == '@';
    assert '@' in multiset(e);
    SplitOfJoined(u, d);
  }

  /** For a Gmail address the canonical form is the tag-free local part without dots. */
  lemma CanonicalGmail(local: string)
    ensures Canonical(local, "gmail.com") == RemoveChar(DropTag(local), '.') + "@" + "gmail.com"
  {
    assert !IsYandex("gmail.com") by {
      assert "gmail.com"[0] != "ya.ru"[0];
      assert "gmail.com"[0] != "yandex.ru"[0];
    }
    assert LocalOf(DropTag(local), "gmail.com") == RemoveChar(DropTag(local), '.');
    assert DomainOf("gmail.com") == "gmail.com";
  }

  /** A Gmail address keeps, of its local part, what precedes the first `+`, without dots. */
  lemma CanonicalGmailTagged(a: string, t: string)
    requires '+' !in a
    ensures Canonical(a + "+" + t, "gmail.com") == RemoveChar(a, '.') + "@" + "gmail.com"
  {
    var s := a + "+" + t;
    assert s == a + ['+'] + t;
    IndexOfAfter(a, t, '+');
    assert s[..|a|] == a;
    CanonicalGmail(s);
  }

  /** Whitespace in front of a stripped string is what `strip` removes. */
  lemma StripLeadingSpace(c: char, s: string)
    requires IsSpace(c) && IsStripped(s)
    ensures Strip([c] + s) == s
  {
    assert ([c] + s)[1..] == s;
  }

  /** An input whose lower-case form has no whitespace at either end is prepared to that form. */
  lemma PrepareOfLowered(e: string, t: string)
    requires Lower(e) == t && IsStripped(t)
    ensures Prepare(e) == t
  {
  }

  /** An input that prepares to a Gmail address with a plain local part normalises to that address. */
  lemma GmailOfPlain(e: string, u: string)
    requires '@' !in u && '.' !in u && '+' !in u
    requires Prepare(e) == u + "@" + "gmail.com"
    ensures NormalizeEmail(e) == Ok(u + "@" + "gmail.com")
  {
    NormalizeOfPreparedJoin(e, u, "gmail.com");
    CanonicalGmail(u);
  }

  // Concrete addresses. Each literal address is taken apart one step per
  // lemma (lower-casing, stripping, splitting, rebuilding the halves), with
  // the literal passed in through a `requires` so that the solver never has
  // to unfold the string functions on it as a whole. The helpers after each
  // headline lemma serve only that lemma.

  // The non-idempotent address: `". x@gmail.com"`.

  /**
   * `create_superuser` normalises twice; the two passes differ when a
   * Gmail local part starts with a dot followed by whitespace.
   */
  lemma GmailDotExposesSpace(e: string, e': string)
    requires e == ". x@gmail.com" && e' == " x@gmail.com"
    ensures NormalizeEmail(e) == Ok(e')
    ensures NormalizeEmail(e') == Ok("x@gmail.com")
  {
    DotSpaceVector(e);
    SpaceVector(e');
  }

  lemma DotSpaceVector(e: string)
    requires e == ". x@gmail.com"
    ensures NormalizeEmail(e) == Ok(" x@gmail.com")
  {
    var l := "." + " x";
    DotSpaceLowered(e, l);
    DotSpaceOfPrepared(e, l);
  }

  lemma DotSpaceLower(e: string, t: string)
    requires e == ". x@gmail.com" && t == ". x@gmail.com"
    ensures Lower(e) == t
  {
  }

  lemma DotSpaceLowered(e: string, l: string)
    requires e == ". x@gmail.com" && l == "." + " x"
    ensures Prepare(e) == l + "@" + "gmail.com"
  {
    var t := l + "@" + "gmail.com";
    DotSpaceLower(e, t);
    assert t[0] == '.' && t[|t| - 1] == 'm';
    PrepareOfLowered(e, t);
  }

  lemma DotSpaceOfPrepared(e: string, l: string)
    requires l == "." + " x"
    requires Prepare(e) == l + "@" + "gmail.com"
    ensures NormalizeEmail(e) == Ok(" x@gmail.com")
  {
    NormalizeOfPreparedJoin(e, l, "gmail.com");
    DotSpaceCanonical(l);
  }

  lemma DotSpaceCanonical(l: string)
    requires l == "." + " x"
    ensures Canonical(l, "gmail.com") == " x@gmail.com"
  {
    CanonicalGmail(l);
    assert DropTag(l) == l;
    RemoveCharAppend(".", " x", '.');
    SpaceAddress();
  }

  lemma SpaceAddress()
    ensures " x" + "@" + "gmail.com" == " x@gmail.com"
  {
  }

  lemma SpaceVector(e: string)
    requires e == " x@gmail.com"
    ensures NormalizeEmail(e) == Ok("x@gmail.com")
  {
    SpaceLowered(e);
    SpaceOfPrepared(e);
  }

  lemma SpaceLowered(e: string)
    requires e == " x@gmail.com"
    ensures Prepare(e) == "x" + "@" + "gmail.com"
  {
    assert Lower(e) == e;
    assert e == [' '] + ("x" + "@" + "gmail.com");
    StripLeadingSpace(' ', "x" + "@" + "gmail.com");
  }

  lemma SpaceOfPrepared(e: string)
    requires Prepare(e) == "x" + "@" + "gmail.com"
    ensures NormalizeEmail(e) == Ok("x@gmail.com")
  {
    GmailOfPlain(e, "x");
    PlainAddress();
  }

  lemma PlainAddress()
    ensures "x" + "@" + "gmail.com" == "x@gmail.com"
  {
  }

  // Test vector: `"ABOBA@yA.ru"`.

  /** Test vector: a Yandex alias is lower-cased and folded onto `yandex.ru`. */
  lemma NormalizeYandexVector(e: string)
    requires e == "ABOBA@yA.ru"
    ensures NormalizeEmail(e) == Ok("aboba@yandex.ru")
  {
    YandexLowered(e);
    YandexOfPrepared(e);
  }

  lemma YandexLower(e: string, t: string)
    requires e == "ABOBA@yA.ru" && t == "aboba@ya.ru"
    ensures Lower(e) == t
  {
  }

  lemma YandexLowered(e: string)
    requires e == "ABOBA@yA.ru"
    ensures Prepare(e) == "aboba" + "@" + "ya.ru"
  {
    var t := "aboba" + "@" + "ya.ru";
    YandexLower(e, t);
    assert t[0] == 'a' && t[|t| - 1] == 'u';
    PrepareOfLowered(e, t);
  }

  lemma YandexOfPrepared(e: string)
    requires Prepare(e) == "aboba" + "@" + "ya.ru"
    ensures NormalizeEmail(e) == Ok("aboba@yandex.ru")
  {
    NormalizeOfPreparedJoin(e, "aboba", "ya.ru");
    YandexCanonical();
  }

  lemma YandexCanonical()
    ensures Canonical("aboba", "ya.ru") == "aboba@yandex.ru"
  {
  }

  // Test vector: `"ABo.ba.+ger@gmail.com"`.

  /** Test vector: a Gmail address loses its `+` tag and its dots. */
  lemma NormalizeGmailVector(e: string)
    requires e == "ABo.ba.+ger@gmail.com"
    ensures NormalizeEmail(e) == Ok("aboba@gmail.com")
  {
    var l := ("abo" + "." + "ba" + ".") + "+" + "ger";
    GmailLowered(e, l);
    GmailOfPrepared(e, l);
  }

  lemma GmailLower(e: string, t: string)
    requires e == "ABo.ba.+ger@gmail.com" && t == "abo.ba.+ger@gmail.com"
    ensures Lower(e) == t
  {
  }

  lemma GmailLowered(e: string, l: string)
    requires e == "ABo.ba.+ger@gmail.com" && l == ("abo" + "." + "ba" + ".") + "+" + "ger"
    ensures Prepare(e) == l + "@" + "gmail.com"
  {
    var t := l + "@" + "gmail.com";
    GmailLower(e, t);
    assert t[0] == 'a' && t[|t| - 1] == 'm';
    PrepareOfLowered(e, t);
  }

  lemma GmailOfPrepared(e: string, l: string)
    requires l == ("abo" + "." + "ba" + ".") + "+" + "ger"
    requires Prepare(e) == l + "@" + "gmail.com"
    ensures NormalizeEmail(e) == Ok("aboba@gmail.com")
  {
    GmailHalvesHaveNoAt(l);
    NormalizeOfPreparedJoin(e, l, "gmail.com");
    GmailCanonical(l);
    GmailAddress();
  }

  lemma GmailHalvesHaveNoAt(l: string)
    requires l == ("abo" + "." + "ba" + ".") + "+" + "ger"
    ensures '@' !in l && '@' !in "gmail.com"
  {
    assert '@' !in "abo" + "." + "ba" + ".";
    assert '@' !in "ger";
  }

  lemma GmailCanonical(l: string)
    requires l == ("abo" + "." + "ba" + ".") + "+" + "ger"
    ensures Canonical(l, "gmail.com") == "aboba" + "@" + "gmail.com"
  {
    var m := "abo" + "." + "ba" + ".";
    assert '+' !in m;
    CanonicalGmailTagged(m, "ger");
    GmailDotsRemoved(m);
  }

  lemma GmailDotsRemoved(m: string)
    requires m == "abo" + "." + "ba" + "."
    ensures RemoveChar(m, '.') == "aboba"
  {
    RemoveCharAppend("abo" + "." + "ba", ".", '.');
    RemoveCharAppend("abo" + ".", "ba", '.');
    RemoveCharAppend("abo", ".", '.');
  }

  lemma GmailAddress()
    ensures "aboba" + "@" + "gmail.com" == "aboba@gmail.com"
  {
  }
}
