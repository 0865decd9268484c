/** Recipient addresses: `<ds_id>[{+|--}mailbox]@<domain>`. */
module Address {
  import opened Wrappers
  import opened Text

  datatype ParsedAddress = ParsedAddress(dsId: string, mailbox: Option<string>, domain: string)

  predicate IdChar(c: char) {
    'a' <= c <= 'z' || '0' <= c <= '9'
  }

  /** `[a-z0-9]{4}(-[a-z0-9]{4}){3}` on a whole string. */
  predicate HashId(s: string) {
    |s| == 19 && forall i | 0 <= i < 19 :: if i % 5 == 4 then s[i] == '-' else IdChar(s[i])
  }

  /** `[a-z0-9]([a-z0-9-]{0,61}[a-z0-9])?` on a whole string. */
  predicate WebId(s: string) {
    && 1 <= |s| <= 63
    && IdChar(s[0]) && IdChar(s[|s| - 1])
    && forall i | 0 <= i < |s| :: IdChar(s[i]) || s[i] == '-'
  }

  /** Python's `$` also matches before one trailing newline. */
  function DropNewline(s: string): string {
    if s != "" && s[|s| - 1] == '\n' then s[..|s| - 1] else s
  }

  /** `is_valid_ds_id`. */
  predicate IsValidDsId(s: string) {
    if s == "" then false
    else if HashId(s) || HashId(DropNewline(s)) then true
    else if !WebId(s) && !WebId(DropNewline(s)) then false
    else !ContainsDashes(s)
  }

  /** `parse_recipient`. */
  function ParseRecipient(email: string, allowed: set<string>): Option<ParsedAddress> {
    var at := FindLast(email, '@');
    if at < 0 then None
    else
      var (local, domain) := (email[..at], Lower(email[at + 1..]));
      if domain !in allowed then None
      else
        var (ds, mailbox) := SplitLocal(local);
        if !IsValidDsId(Lower(ds)) then None
        else Some(ParsedAddress(Lower(ds), mailbox, domain))
  }

  /** The first `+` or `--` ends the ds_id; an empty mailbox is none. */
  function SplitLocal(local: string): (string, Option<string>) {
    var plus, dashes := Find(local, '+'), FindDashes(local);
    if plus == |local| && dashes == |local| then (local, None)
    else
      var (sepIdx, sepLen) := if dashes < plus then (dashes, 2) else (plus, 1);
      var rest := local[sepIdx + sepLen..];
      (local[..sepIdx], if rest == "" then None else Some(rest))
  }

  /** The domain of an address, which alone decides whether its host is allowed. */
  function DomainOf(email: string): string {
    Lower(email[FindLast(email, '@') + 1..])
  }

  /** The allowed hosts accept or reject; they never change what is parsed. */
  lemma ParseIgnoresOtherHosts(email: string, allowed: set<string>)
    ensures ParseRecipient(email, allowed).Some? ==>
              && ParseRecipient(email, allowed) == ParseRecipient(email, {DomainOf(email)})
              && ParseRecipient(email, allowed).value.domain == DomainOf(email)
              && DomainOf(email) in allowed
  {
  }

  // ---------------------------------------------------------------- the grammar

  /** Accepted ids, in closed form: the first regular expression adds nothing, and only
      the newline `$` tolerates separates them from the documented slugs. */
  lemma ValidDsIdForm(s: string)
    ensures IsValidDsId(s) <==> WebId(DropNewline(s)) && !ContainsDashes(s)
  {
  }

  const SLUG_CHARS := "abcdefghijklmnopqrstuvwxyz0123456789"

  predicate IsSlugChar(c: char) {
    c in SLUG_CHARS
  }

  lemma SlugChars(c: char)
    ensures IdChar(c) <==> IsSlugChar(c)
  {
    if 'a' <= c <= 'z' {
      LetterIsSlugChar(c);
    } else if '0' <= c <= '9' {
      DigitIsSlugChar(c);
    } else if IsSlugChar(c) {
      OtherIsNot(c);
    }
  }

  lemma LetterIsSlugChar(c: char)
    requires 'a' <= c <= 'z'
    ensures IsSlugChar(c)
  {
    assert SLUG_CHARS[c as int - 'a' as int] == c;
  }

  lemma DigitIsSlugChar(c: char)
    requires '0' <= c <= '9'
    ensures IsSlugChar(c)
  {
    assert SLUG_CHARS[26 + c as int - '0' as int] == c;
  }

  lemma OtherIsNot(c: char)
    requires IsSlugChar(c)
    ensures IdChar(c)
  {
  }

  /** One letter or digit, or two with up to 61 letters, digits and dashes between them. */
  predicate IsSlug(s: string, middle: string) {
    || (|s| == 1 && IsSlugChar(s[0]))
    || (s != "" && |middle| <= 61
        && (forall i | 0 <= i < |middle| :: IsSlugChar(middle[i]) || middle[i] == '-')
        && IsSlugChar(s[0]) && IsSlugChar(s[|s| - 1])
        && s == [s[0]] + middle + [s[|s| - 1]])
  }

  lemma WebIdIsSlug(s: string)
    ensures WebId(s) <==> exists middle :: IsSlug(s, middle)
  {
    forall c
      ensures IdChar(c) <==> IsSlugChar(c)
    {
      SlugChars(c);
    }
    if WebId(s) {
      WebIdHasMiddle(s);
    }
    hide WebId;
    if exists middle :: IsSlug(s, middle) {
      var middle :| IsSlug(s, middle);
      SlugIsWebId(s, middle);
    }
  }

  lemma WebIdHasMiddle(s: string)
    requires WebId(s) && forall c :: IdChar(c) <==> IsSlugChar(c)
    ensures exists middle :: IsSlug(s, middle)
  {
    hide IdChar, IsSlugChar;
    if |s| == 1 {
      assert IsSlug(s, "");
    } else {
      var middle := s[1..|s| - 1];
      assert s == [s[0]] + middle + [s[|s| - 1]];
      assert forall i | 0 <= i < |middle| :: middle[i] == s[i + 1];
      assert IsSlug(s, middle);
    }
  }

  lemma SlugIsWebId(s: string, middle: string)
    requires IsSlug(s, middle) && forall c :: IdChar(c) <==> IsSlugChar(c)
    ensures WebId(s)
  {
    hide IdChar, IsSlugChar;
    if |s| > 1 {
      assert |s| == |middle| + 2;
      assert forall i | 0 < i < |s| - 1 :: s[i] == middle[i - 1];
    }
  }

  /** An accepted id is a slug of 1 to 63 characters without `--`, or one with a newline
      after it, and every such text is accepted. */
  lemma ValidDsIdIff(s: string)
    ensures IsValidDsId(s) <==>
            exists slug, middle :: IsSlug(slug, middle) && !ContainsDashes(slug) && (s == slug || s == slug + "\n")
  {
    hide IdChar, IsSlugChar;
    ValidDsIdForm(s);
    hide IsValidDsId;
    var slug := DropNewline(s);
    WebIdIsSlug(slug);
    assert s == slug || s == slug + "\n";
    assert !ContainsDashes(s) <==> !ContainsDashes(slug) by {
      NewlineHidesNoDashes(slug);
    }
    if exists t, middle :: IsSlug(t, middle) && !ContainsDashes(t) && (s == t || s == t + "\n") {
      var t, middle :| IsSlug(t, middle) && !ContainsDashes(t) && (s == t || s == t + "\n");
      SlugEndsPlain(t, middle);
      assert DropNewline(s) == t;
    }
  }

  lemma NewlineHidesNoDashes(s: string)
    ensures ContainsDashes(s + "\n") <==> ContainsDashes(s)
  {
    assert forall i | 0 <= i < |s| :: DashesAt(s + "\n", i) <==> DashesAt(s, i);
  }

  lemma SlugEndsPlain(s: string, middle: string)
    requires IsSlug(s, middle)
    ensures s != "" && s[|s| - 1] != '\n'
    ensures DropNewline(s) == s && DropNewline(s + "\n") == s
  {
    SlugChars(s[|s| - 1]);
    hide IsSlugChar;
  }

  predicate IsGroup(s: string) {
    |s| == 4 && forall i | 0 <= i < 4 :: IsSlugChar(s[i])
  }

  /** Four groups of four letters or digits, joined by dashes. */
  predicate IsHash(s: string, a: string, b: string, c: string, d: string) {
    IsGroup(a) && IsGroup(b) && IsGroup(c) && IsGroup(d) && s == a + "-" + b + "-" + c + "-" + d
  }

  lemma HashIdIsHash(s: string)
    ensures HashId(s) <==> exists a, b, c, d :: IsHash(s, a, b, c, d)
  {
    hide IsSlugChar, IsHash;
    forall c
      ensures IdChar(c) <==> IsSlugChar(c)
    {
      SlugChars(c);
    }
    hide IdChar;
    if HashId(s) {
      HashIsFourGroups(s);
      assert IsHash(s, s[..4], s[5..9], s[10..14], s[15..]);
    }
    if exists a, b, c, d :: IsHash(s, a, b, c, d) {
      var a, b, c, d :| IsHash(s, a, b, c, d);
      FourGroupsAreHash(s, a, b, c, d);
    }
  }

  lemma HashIsFourGroups(s: string)
    requires HashId(s) && forall c :: IdChar(c) <==> IsSlugChar(c)
    ensures IsHash(s, s[..4], s[5..9], s[10..14], s[15..])
  {
    hide IdChar, IsSlugChar;
    assert s[4] == s[9] == s[14] == '-';
    assert s == s[..4] + "-" + s[5..9] + "-" + s[10..14] + "-" + s[15..];
    forall k: nat | k < 4
      ensures IsGroup(s[5 * k..5 * k + 4])
    {
      var group := s[5 * k..5 * k + 4];
      forall i | 0 <= i < 4
        ensures IsSlugChar(group[i])
      {
        assert IdChar(s[5 * k + i]);
      }
    }
    assert IsGroup(s[5 * 0..4]) && IsGroup(s[5 * 1..9]) && IsGroup(s[5 * 2..14]) && IsGroup(s[5 * 3..19]);
  }

  lemma FourGroupsAreHash(s: string, a: string, b: string, c: string, d: string)
    requires IsHash(s, a, b, c, d) && forall x :: IdChar(x) <==> IsSlugChar(x)
    ensures HashId(s)
  {
    hide IdChar, IsSlugChar;
    forall i | 0 <= i < 19
      ensures if i % 5 == 4 then s[i] == '-' else IdChar(s[i])
    {
      if i < 4 {
        assert s[i] == a[i];
      } else if 5 <= i < 9 {
        assert s[i] == b[i - 5];
      } else if 10 <= i < 14 {
        assert s[i] == c[i - 10];
      } else if 15 <= i {
        assert s[i] == d[i - 15];
      }
    }
  }

  /** Every hash-id is also a valid web-id. */
  lemma HashIsWeb(s: string)
    ensures HashId(s) ==> WebId(s) && !ContainsDashes(s)
  {
  }

  /** An accepted id is lower case, has 1 to 63 characters before a tolerated newline, and
      holds none of the characters that delimit it in an address or in a key. */
  lemma ValidDsIdChars(s: string)
    requires IsValidDsId(s)
    ensures 1 <= |DropNewline(s)| <= 63
    ensures Lower(s) == s
    ensures '+' !in s && '@' !in s && '/' !in s && !ContainsDashes(s)
    ensures s[|s| - 1] != '-'
  {
  }

  function Print(ds: string, sep: string, mailbox: Option<string>, domain: string): string {
    match mailbox
    case None => ds + "@" + domain
    case Some(m) => ds + sep + m + "@" + domain
  }

  predicate IsSeparator(sep: string) {
    sep == "+" || sep == "--"
  }

  lemma SplitPrinted(ds: string, sep: string, mailbox: string)
    requires IsValidDsId(Lower(ds)) && IsSeparator(sep)
    ensures SplitLocal(ds + sep + mailbox) == (ds, if mailbox == "" then None else Some(mailbox))
  {
    SeparatorFirst(ds, sep, mailbox);
    var local := ds + sep + mailbox;
    Rejoin(ds + sep, mailbox);
    Rejoin(ds, sep);
    assert local[..|ds|] == ds;
    hide Find, FindDashes, IsValidDsId;
  }

  /** The separator that was printed is the first one. */
  lemma SeparatorFirst(ds: string, sep: string, mailbox: string)
    requires IsValidDsId(Lower(ds)) && IsSeparator(sep)
    ensures var local := ds + sep + mailbox;
            if sep == "+" then Find(local, '+') == |ds| && FindDashes(local) > |ds|
            else FindDashes(local) == |ds| && Find(local, '+') > |ds|
  {
    ValidDsIdChars(Lower(ds));
    var local := ds + sep + mailbox;
    NoSeparatorInside(ds);
    forall k | 0 <= k < |ds|
      ensures local[k] != '+' && !DashesAt(local, k)
    {
      assert local[k] == ds[k];
      if k + 1 < |ds| {
        assert local[k + 1] == ds[k + 1];
        assert !DashesAt(ds, k);
      } else {
        assert Lower(ds)[k] == LowerChar(ds[k]);
      }
    }
    assert local[|ds|] == sep[0];
    if sep == "--" {
      assert local[|ds| + 1] == sep[1];
      assert DashesAt(local, |ds|);
    }
  }

  /** Lower-casing neither makes nor hides a separator. */
  lemma NoSeparatorInside(ds: string)
    requires IsValidDsId(Lower(ds))
    ensures forall k | 0 <= k < |ds| :: ds[k] != '+' && ds[k] != '@' && ds[k] != '/' && !DashesAt(ds, k)
  {
    ValidDsIdChars(Lower(ds));
    forall k | 0 <= k < |ds|
      ensures ds[k] != '+' && ds[k] != '@' && ds[k] != '/' && !DashesAt(ds, k)
    {
      assert Lower(ds)[k] == LowerChar(ds[k]);
      assert Lower(ds)[k] in Lower(ds);
      if DashesAt(ds, k) {
        assert DashesAt(Lower(ds), k);
      }
    }
  }

  lemma SplitPlain(ds: string)
    requires IsValidDsId(Lower(ds))
    ensures SplitLocal(ds) == (ds, None)
  {
    NoSeparatorInside(ds);
    assert Find(ds, '+') == |ds|;
    assert FindDashes(ds) == |ds|;
  }

  lemma Halves(local: string, domain: string)
    ensures (local + "@" + domain)[..|local|] == local
    ensures (local + "@" + domain)[|local| + 1..] == domain
  {
  }

  /** Parsing undoes printing: whatever separator was used and whatever the mailbox holds
      (`+`, `--`, `@` or any other character), the parts come back, with the ds_id and the
      domain in lower case and the mailbox untouched. */
  lemma ParsePrinted(ds: string, sep: string, mailbox: Option<string>, domain: string, allowed: set<string>)
    requires IsValidDsId(Lower(ds)) && IsSeparator(sep)
    requires '@' !in domain && Lower(domain) in allowed
    ensures ParseRecipient(Print(ds, sep, mailbox, domain), allowed) ==
            Some(ParsedAddress(Lower(ds), if mailbox == Some("") then None else mailbox, Lower(domain)))
  {
    match mailbox
    case None =>
      SplitPlain(ds);
      LastIsJoint(ds, '@', domain);
      Halves(ds, domain);
    case Some(m) =>
      SplitPrinted(ds, sep, m);
      LastIsJoint(ds + sep + m, '@', domain);
      Halves(ds + sep + m, domain);
  }

  lemma SplitRejoins(local: string) returns (sep: string, mailbox: Option<string>)
    ensures IsSeparator(sep)
    ensures var (ds, m) := SplitLocal(local);
            && local == (if mailbox.None? then ds else ds + sep + mailbox.value)
            && m == if mailbox == Some("") then None else mailbox
  {
    var plus, dashes := Find(local, '+'), FindDashes(local);
    if plus == |local| && dashes == |local| {
      sep, mailbox := "+", None;
    } else if dashes < plus {
      sep, mailbox := "--", Some(local[dashes + 2..]);
      CutOut(local, dashes, sep);
    } else {
      sep, mailbox := "+", Some(local[plus + 1..]);
      CutOut(local, plus, sep);
    }
    hide Find, FindDashes;
  }

  lemma CutOut(s: string, i: nat, sep: string)
    requires (sep == "+" && i < |s| && s[i] == '+') || (sep == "--" && DashesAt(s, i))
    ensures i + |sep| <= |s| && s == s[..i] + sep + s[i + |sep|..]
  {
    Cut(s, i, i + |sep|);
    assert s[i..i + |sep|] == sep;
  }

  /** An address is accepted as `p` exactly when it is some printing of `p`. */
  lemma ParseIffPrinted(email: string, allowed: set<string>, p: ParsedAddress)
    requires forall d | d in allowed :: '@' !in d
    ensures ParseRecipient(email, allowed) == Some(p) <==>
            exists ds, sep, mailbox, domain :: Prints(email, allowed, p, ds, sep, mailbox, domain)
  {
    if ParseRecipient(email, allowed) == Some(p) {
      var at := FindLast(email, '@');
      var (local, domain) := (email[..at], email[at + 1..]);
      assert email == local + "@" + domain;
      NoAtInDomain(domain);
      var sep, mailbox := SplitRejoins(local);
      assert Prints(email, allowed, p, SplitLocal(local).0, sep, mailbox, domain);
    }
    if exists ds, sep, mailbox, domain :: Prints(email, allowed, p, ds, sep, mailbox, domain) {
      var ds, sep, mailbox, domain :| Prints(email, allowed, p, ds, sep, mailbox, domain);
      ParsePrinted(ds, sep, mailbox, domain, allowed);
    }
  }

  lemma NoAtInDomain(domain: string)
    requires '@' !in Lower(domain)
    ensures '@' !in domain
  {
  }

  ghost predicate Prints(email: string, allowed: set<string>, p: ParsedAddress,
                         ds: string, sep: string, mailbox: Option<string>, domain: string) {
    && IsValidDsId(Lower(ds)) && IsSeparator(sep) && '@' !in domain && Lower(domain) in allowed
    && email == Print(ds, sep, mailbox, domain)
    && p == ParsedAddress(Lower(ds), if mailbox == Some("") then None else mailbox, Lower(domain))
  }

  /** Re-printing a parsed address with either separator and parsing it again changes nothing. */
  lemma ReprintStable(email: string, sep: string, allowed: set<string>)
    requires forall d | d in allowed :: '@' !in d
    requires IsSeparator(sep)
    requires ParseRecipient(email, allowed).Some?
    ensures var p := ParseRecipient(email, allowed).value;
            ParseRecipient(Print(p.dsId, sep, p.mailbox, p.domain), allowed) == Some(p)
  {
    var p := ParseRecipient(email, allowed).value;
    ValidDsIdChars(p.dsId);
    LowerTwice(email[FindLast(email, '@') + 1..]);
    ParsePrinted(p.dsId, sep, p.mailbox, p.domain, allowed);
  }

  /** The newline `$` tolerates really gets through. */
  lemma TrailingNewlineAccepted()
    ensures IsValidDsId("firma\n")
  {
  }
}
