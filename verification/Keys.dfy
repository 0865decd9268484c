/** Idempotency keys: what they are made of and which mails share one. */
module Keys {
  import opened Wrappers
  import opened Text
  import opened Address

  /** The text that is hashed. */
  function Payload(domain: string, localPart: string, messageId: string): string {
    Lower(domain) + "/" + localPart + "/" + messageId
  }

  /** `rcpt.split("@", 1)[0]`: everything before the first `@`. */
  function LocalPart(rcpt: string): string {
    rcpt[..Find(rcpt, '@')]
  }

  function IdempotencyKey(hash: string -> string, domain: string, localPart: string, messageId: string): string {
    hash(Payload(domain, localPart, messageId))
  }

  const NOMID := "nomid-"

  /** The key of a mail that has no Message-ID. */
  predicate IsNoMid(key: string) {
    StartsWith(key, NOMID)
  }

  /** 64 lower-case hexadecimal digits. */
  predicate HexDigest(s: string) {
    |s| == 64 && forall i | 0 <= i < 64 :: '0' <= s[i] <= '9' || 'a' <= s[i] <= 'f'
  }

  /** The worker tells the two families apart by prefix, and no digest has that prefix. */
  lemma DigestIsNotNoMid(key: string)
    requires HexDigest(key)
    ensures !IsNoMid(key)
  {
    assert key[..|NOMID|][0] == key[0];
    assert NOMID[0] == 'n';
  }

  // ------------------------------------------------- what a key says about its mail

  /** A position where the ds_id of a key payload can end. */
  predicate Stop(s: string, k: int) {
    0 <= k < |s| && (s[k] == '/' || s[k] == '+' || DashesAt(s, k))
  }

  predicate DsEndsAt(localPart: string, n: int, dsId: string) {
    && 0 <= n <= |localPart|
    && Lower(localPart[..n]) == dsId
    && (n == |localPart| || localPart[n] == '+' || DashesAt(localPart, n))
  }

  /** The ds_id of an accepted recipient lies before its first `@`, ended by a separator or
      by that `@`, even when the address holds several. */
  lemma DsInLocalPart(rcpt: string, allowed: set<string>) returns (n: nat)
    requires ParseRecipient(rcpt, allowed).Some?
    ensures IsValidDsId(ParseRecipient(rcpt, allowed).value.dsId)
    ensures DsEndsAt(LocalPart(rcpt), n, ParseRecipient(rcpt, allowed).value.dsId)
  {
    var local := rcpt[..FindLast(rcpt, '@')];
    var ds := SplitLocal(local).0;
    n := |ds|;
    assert ds == local[..n] == rcpt[..n];
    NoSeparatorInside(ds);
    var first := Find(rcpt, '@');
    assert forall k | 0 <= k < n :: rcpt[k] == ds[k] && ds[k] != '@';
    assert n <= first;
    assert LocalPart(rcpt)[..n] == ds;
    if n < |local| {
      assert local[n] == rcpt[n] && rcpt[n] != '@';
      if DashesAt(local, n) {
        assert rcpt[n + 1] == '-';
      }
    }
  }

  /** The ds_id ends at the first stop of the text that follows the domain. */
  lemma FirstStop(localPart: string, n: nat, dsId: string, messageId: string)
    requires IsValidDsId(dsId) && DsEndsAt(localPart, n, dsId)
    ensures var c := localPart + "/" + messageId;
            Stop(c, n) && (forall k | 0 <= k < n :: !Stop(c, k)) && Lower(c[..n]) == dsId
  {
    var c := localPart + "/" + messageId;
    var ds := localPart[..n];
    NoSeparatorInside(ds);
    ValidDsIdChars(dsId);
    assert c[..n] == ds;
    assert Lower(ds)[n - 1] == LowerChar(ds[n - 1]);
    forall k | 0 <= k < n
      ensures !Stop(c, k)
    {
      assert c[k] == ds[k];
      if k + 1 < n {
        assert c[k + 1] == ds[k + 1];
        assert !DashesAt(ds, k);
      }
    }
    if n < |localPart| {
      assert c[n] == localPart[n];
      if DashesAt(localPart, n) {
        assert c[n + 1] == localPart[n + 1];
      }
    } else {
      assert c[n] == '/';
    }
  }

  /** A text without `c`, then `c`, splits there and nowhere else. */
  lemma SplitAtFirst(a: string, x: string, b: string, y: string, c: char)
    requires c !in a && c !in b
    requires a + [c] + x == b + [c] + y
    ensures a == b && x == y
  {
    var s, t := a + [c] + x, b + [c] + y;
    assert s[|a|] == c && t[|b|] == c;
    assert forall k | 0 <= k < |a| :: s[k] == a[k] && a[k] != c;
    assert forall k | 0 <= k < |b| :: t[k] == b[k] && b[k] != c;
    assert |a| == |b|;
    Rejoin(a + [c], x);
    Rejoin(b + [c], y);
    Rejoin(a, [c]);
    Rejoin(b, [c]);
  }

  /** Equal payloads have equal domains and equal remainders. */
  lemma SamePayloadSameDomain(d1: string, l1: string, m1: string, d2: string, l2: string, m2: string)
    requires '/' !in Lower(d1) && '/' !in Lower(d2)
    requires Payload(d1, l1, m1) == Payload(d2, l2, m2)
    ensures Lower(d1) == Lower(d2)
    ensures l1 + "/" + m1 == l2 + "/" + m2
  {
    var (x, y) := (l1 + "/" + m1, l2 + "/" + m2);
    assert Payload(d1, l1, m1) == Lower(d1) + ['/'] + x;
    assert Payload(d2, l2, m2) == Lower(d2) + ['/'] + y;
    SplitAtFirst(Lower(d1), x, Lower(d2), y, '/');
  }

  /** Whatever the Message-IDs hold, mails that share a key go to the same data source. */
  lemma KeyDeterminesDs(r1: string, a1: set<string>, m1: string, r2: string, a2: set<string>, m2: string)
    requires ParseRecipient(r1, a1).Some? && ParseRecipient(r2, a2).Some?
    requires forall d | d in a1 + a2 :: '/' !in d
    requires var (p1, p2) := (ParseRecipient(r1, a1).value, ParseRecipient(r2, a2).value);
             Payload(p1.domain, LocalPart(r1), m1) == Payload(p2.domain, LocalPart(r2), m2)
    ensures ParseRecipient(r1, a1).value.dsId == ParseRecipient(r2, a2).value.dsId
    ensures ParseRecipient(r1, a1).value.domain == ParseRecipient(r2, a2).value.domain
  {
    var (p1, p2) := (ParseRecipient(r1, a1).value, ParseRecipient(r2, a2).value);
    LowerTwice(r1[FindLast(r1, '@') + 1..]);
    LowerTwice(r2[FindLast(r2, '@') + 1..]);
    SamePayloadSameDomain(p1.domain, LocalPart(r1), m1, p2.domain, LocalPart(r2), m2);
    var n1 := DsInLocalPart(r1, a1);
    var n2 := DsInLocalPart(r2, a2);
    FirstStop(LocalPart(r1), n1, p1.dsId, m1);
    FirstStop(LocalPart(r2), n2, p2.dsId, m2);
    assert n1 == n2;
  }

  predicate SingleAt(rcpt: string) {
    forall i, j | 0 <= i < j < |rcpt| :: rcpt[i] == '@' ==> rcpt[j] != '@'
  }

  /** `hash` has no collision between these two texts. */
  predicate NoCollision(hash: string -> string, x: string, y: string) {
    hash(x) == hash(y) ==> x == y
  }

  /** Deduplication never merges different mail that follows the RFCs: with one `@` in each
      recipient (section 2.3.11 of RFC 5321), unquoted local parts without `<` (section
      4.1.2 of RFC 5321) and Message-IDs that open with `<` (section 3.6.4 of RFC 5322),
      equal keys mean the same Message-ID and the same parsed recipient. */
  lemma SameKeySameMail(hash: string -> string, r1: string, a1: set<string>, m1: string,
                        r2: string, a2: set<string>, m2: string)
    requires ParseRecipient(r1, a1).Some? && ParseRecipient(r2, a2).Some?
    requires forall d | d in a1 + a2 :: '/' !in d
    requires SingleAt(r1) && SingleAt(r2)
    requires '<' !in LocalPart(r1) && '<' !in LocalPart(r2)
    requires StartsWith(m1, "<") && StartsWith(m2, "<")
    requires var (d1, d2) := (ParseRecipient(r1, a1).value.domain, ParseRecipient(r2, a2).value.domain);
             && NoCollision(hash, Payload(d1, LocalPart(r1), m1), Payload(d2, LocalPart(r2), m2))
             && IdempotencyKey(hash, d1, LocalPart(r1), m1) == IdempotencyKey(hash, d2, LocalPart(r2), m2)
    ensures m1 == m2
    ensures ParseRecipient(r1, a1) == ParseRecipient(r2, a2)
  {
    var (p1, p2) := (ParseRecipient(r1, a1).value, ParseRecipient(r2, a2).value);
    LowerTwice(r1[FindLast(r1, '@') + 1..]);
    LowerTwice(r2[FindLast(r2, '@') + 1..]);
    SamePayloadSameDomain(p1.domain, LocalPart(r1), m1, p2.domain, LocalPart(r2), m2);
    SplitBeforeAngle(LocalPart(r1), m1, LocalPart(r2), m2);
    OneAt(r1);
    OneAt(r2);
  }

  lemma OneAt(rcpt: string)
    requires SingleAt(rcpt) && FindLast(rcpt, '@') >= 0
    ensures Find(rcpt, '@') == FindLast(rcpt, '@')
  {
  }

  /** The first `<` is the Message-ID's. */
  lemma SplitBeforeAngle(l1: string, m1: string, l2: string, m2: string)
    requires '<' !in l1 && '<' !in l2 && StartsWith(m1, "<") && StartsWith(m2, "<")
    requires l1 + "/" + m1 == l2 + "/" + m2
    ensures l1 == l2 && m1 == m2
  {
    assert m1 == ['<'] + m1[1..] && m2 == ['<'] + m2[1..];
    assert l1 + "/" + m1 == (l1 + "/") + ['<'] + m1[1..];
    assert l2 + "/" + m2 == (l2 + "/") + ['<'] + m2[1..];
    SplitAtFirst(l1 + "/", m1[1..], l2 + "/", m2[1..], '<');
    assert (l1 + "/")[..|l1|] == l1 && (l2 + "/")[..|l2|] == l2;
  }

  // ------------------------------------------------- where the payload is ambiguous

  /** An accepted recipient and a Message-ID that are not the given ones, as the key sees
      them, but have the same key text. */
  predicate SharesPayload(rcpt: string, m: string, other: string, m2: string, allowed: set<string>)
    requires ParseRecipient(rcpt, allowed).Some?
  {
    && ParseRecipient(other, allowed).Some? && m2 != "" && Trimmed(m2)
    && (LocalPart(other) != LocalPart(rcpt) || m2 != m)
    && Payload(ParseRecipient(other, allowed).value.domain, LocalPart(other), m2) ==
       Payload(ParseRecipient(rcpt, allowed).value.domain, LocalPart(rcpt), m)
  }

  /** The Message-ID could have lent its first `k` characters to a local part. A Message-ID is
      stripped, so what remains does not start with white space. */
  predicate Splittable(m: string, k: int) {
    0 <= k < |m| - 1 && m[k] == '/' && '@' !in m[..k] && !IsSpace(m[k + 1])
  }

  /** The local part could have lent what follows its `/` at `k` to a Message-ID. */
  predicate Lendable(l: string, k: int) {
    0 <= k < |l| && l[k] == '/' && (k + 1 < |l| ==> !IsSpace(l[k + 1]))
  }

  /** There is a `/` to which the cut can be moved. */
  ghost predicate OtherCut(l: string, m: string) {
    (exists k :: Lendable(l, k)) || (exists k :: Splittable(m, k))
  }

  predicate HasSeparator(l: string) {
    '+' in l || ContainsDashes(l)
  }

  /** Without those conventions the `/` of the key text is ambiguous. An accepted recipient
      shares its key text with another accepted one exactly when its local part holds a
      separator (so that a mailbox can grow or shrink) and there is a `/` to move the cut to:
      in the local part, or in the Message-ID before its first `@`, not followed by white
      space. */
  lemma PayloadSharedIff(rcpt: string, m: string, allowed: set<string>)
    requires ParseRecipient(rcpt, allowed).Some? && m != "" && Trimmed(m)
    requires forall d | d in allowed :: '/' !in d && '@' !in d
    ensures (exists other, m2 :: SharesPayload(rcpt, m, other, m2, allowed)) <==>
            HasSeparator(LocalPart(rcpt)) && OtherCut(LocalPart(rcpt), m)
  {
    if exists other, m2 :: SharesPayload(rcpt, m, other, m2, allowed) {
      var other, m2 :| SharesPayload(rcpt, m, other, m2, allowed);
      SharedHasCut(rcpt, m, other, m2, allowed);
    }
    if HasSeparator(LocalPart(rcpt)) && OtherCut(LocalPart(rcpt), m) {
      var other, m2 := MoveCut(rcpt, m, allowed);
    }
  }

  /** Two cuts of one text at different places: the longer part holds the `/` of the other. */
  lemma TwoCuts(l: string, m: string, l2: string, m2: string)
    requires l + "/" + m == l2 + "/" + m2 && |l| < |l2|
    ensures l2[|l|] == '/' && |l2| - |l| - 1 < |m| && m[|l2| - |l| - 1] == '/'
    ensures m[..|l2| - |l| - 1] == l2[|l| + 1..]
    ensures |m| == |l2| - |l| + |m2| && m[|l2| - |l|..] == m2
  {
    var s, k := l + "/" + m, |l2| - |l| - 1;
    assert s[|l|] == '/' && s[|l|] == l2[|l|];
    assert s[|l2|] == '/' && s[|l2|] == m[k];
    assert s[|l| + 1..|l2|] == m[..k];
    assert (l2 + "/" + m2)[|l| + 1..|l2|] == l2[|l| + 1..];
    assert s[|l2| + 1..] == m[k + 1..] && (l2 + "/" + m2)[|l2| + 1..] == m2;
  }

  lemma SharedHasCut(rcpt: string, m: string, other: string, m2: string, allowed: set<string>)
    requires ParseRecipient(rcpt, allowed).Some? && m != ""
    requires forall d | d in allowed :: '/' !in d
    requires SharesPayload(rcpt, m, other, m2, allowed)
    ensures HasSeparator(LocalPart(rcpt)) && OtherCut(LocalPart(rcpt), m)
  {
    var (p, p2) := (ParseRecipient(rcpt, allowed).value, ParseRecipient(other, allowed).value);
    var n := DsInLocalPart(rcpt, allowed);
    var n2 := DsInLocalPart(other, allowed);
    LowerTwice(rcpt[FindLast(rcpt, '@') + 1..]);
    LowerTwice(other[FindLast(other, '@') + 1..]);
    SamePayloadSameDomain(p.domain, LocalPart(rcpt), m, p2.domain, LocalPart(other), m2);
    NoAtInLocalPart(other);
    hide ParseRecipient, LocalPart, IsValidDsId, DsEndsAt, HasSeparator, OtherCut, Trimmed;
    CutFound(LocalPart(rcpt), m, n, p.dsId, LocalPart(other), m2, n2, p2.dsId);
  }

  lemma CutFound(l: string, m: string, n: nat, dsId: string, l2: string, m2: string, n2: nat, dsId2: string)
    requires IsValidDsId(dsId) && DsEndsAt(l, n, dsId) && IsValidDsId(dsId2) && DsEndsAt(l2, n2, dsId2)
    requires l + "/" + m == l2 + "/" + m2 && (l2 != l || m2 != m) && m2 != "" && Trimmed(m2) && '@' !in l2
    ensures HasSeparator(l) && OtherCut(l, m)
  {
    FirstStop(l, n, dsId, m);
    FirstStop(l2, n2, dsId2, m2);
    assert n == n2;
    hide IsValidDsId, HasSeparator;
    if |l2| < |l| {
      assert n <= |l2| by { hide DashesAt; }
      TwoCuts(l2, m2, l, m);
      EndsEarly(l, n, dsId);
      LentIsTrimmed(l2, m2, l);
      assert Lendable(l, |l2|);
    } else if |l| < |l2| {
      TwoCuts(l, m, l2, m2);
      EndsEarly(l2, n, dsId2);
      assert n < |l|;
      EndsEarly(l, n, dsId);
      assert m[|l2| - |l|] == m2[0];
      assert Splittable(m, |l2| - |l| - 1);
    } else {
      SameCut(l, m, l2, m2);
    }
  }

  lemma LentIsTrimmed(l2: string, m2: string, l: string)
    requires |l2| < |l| && |l| - |l2| - 1 < |m2| && m2[..|l| - |l2| - 1] == l[|l2| + 1..] && Trimmed(m2)
    ensures |l2| + 1 < |l| ==> !IsSpace(l[|l2| + 1])
  {
    if |l2| + 1 < |l| {
      assert l[|l2| + 1] == l[|l2| + 1..][0] == m2[0];
    }
  }

  lemma SameCut(l: string, m: string, l2: string, m2: string)
    requires l + "/" + m == l2 + "/" + m2 && |l| == |l2|
    ensures l == l2 && m == m2
  {
    assert l + ("/" + m) == l + "/" + m && l2 + ("/" + m2) == l2 + "/" + m2;
    Rejoin(l, "/" + m);
    Rejoin(l2, "/" + m2);
    Rejoin("/", m);
    Rejoin("/", m2);
  }

  lemma NoAtInLocalPart(rcpt: string)
    ensures '@' !in LocalPart(rcpt)
  {
  }

  /** A ds_id that ends before the local part does ends at a separator. */
  lemma EndsEarly(l: string, n: nat, dsId: string)
    requires DsEndsAt(l, n, dsId) && n < |l|
    ensures HasSeparator(l) && l[n] != '/'
  {
    assert DashesAt(l, n) ==> ContainsDashes(l);
    assert l[n] == '+' ==> '+' in l;
  }

  /** Move the cut to another `/`, by giving the recipient a longer or a shorter mailbox. */
  lemma MoveCut(rcpt: string, m: string, allowed: set<string>) returns (other: string, m2: string)
    requires ParseRecipient(rcpt, allowed).Some? && m != "" && Trimmed(m)
    requires forall d | d in allowed :: '/' !in d && '@' !in d
    requires HasSeparator(LocalPart(rcpt)) && OtherCut(LocalPart(rcpt), m)
    ensures SharesPayload(rcpt, m, other, m2, allowed)
  {
    if exists k :: Lendable(LocalPart(rcpt), k) {
      other, m2 := CutInLocalPart(rcpt, m, allowed);
    } else {
      other, m2 := CutInMessageId(rcpt, m, allowed);
    }
  }

  lemma CutInLocalPart(rcpt: string, m: string, allowed: set<string>) returns (other: string, m2: string)
    requires ParseRecipient(rcpt, allowed).Some? && m != "" && Trimmed(m) && forall d | d in allowed :: '@' !in d
    requires HasSeparator(LocalPart(rcpt)) && exists k :: Lendable(LocalPart(rcpt), k)
    ensures SharesPayload(rcpt, m, other, m2, allowed)
  {
    var l := LocalPart(rcpt);
    var n, sep := SeparatorAfterDs(rcpt, allowed);
    NoAtInLocalPart(rcpt);
    hide ParseRecipient, LocalPart, DsEndsAt, HasSeparator, Payload, IsSeparator, Trimmed;
    var k :| Lendable(l, k);
    LongerStaysTrimmed(l, k, m);
    ShorterMailbox(l, n, sep, k);
    other := WithMailbox(rcpt, allowed, n, sep, l[n + |sep|..k]);
    m2 := l[k + 1..] + "/" + m;
    CutAgain(ParseRecipient(rcpt, allowed).value.domain, l, m, k);
  }

  lemma LongerStaysTrimmed(l: string, k: int, m: string)
    requires Lendable(l, k) && m != "" && Trimmed(m)
    ensures Trimmed(l[k + 1..] + "/" + m)
  {
  }

  lemma RestStaysTrimmed(m: string, k: int)
    requires Splittable(m, k) && Trimmed(m)
    ensures Trimmed(m[k + 1..])
  {
  }

  lemma ShorterMailbox(l: string, n: nat, sep: string, k: nat)
    requires n + |sep| <= |l| && l[n..n + |sep|] == sep && '@' !in l
    requires k < |l| && l[k] == '/' && forall i | 0 <= i < n + |sep| :: l[i] != '/'
    ensures n + |sep| <= k && l[..n] + sep + l[n + |sep|..k] == l[..k] && '@' !in l[n + |sep|..k]
  {
    assert n + |sep| <= k;
    assert l[..k] == l[..n] + l[n..n + |sep|] + l[n + |sep|..k];
    var mailbox := l[n + |sep|..k];
    assert forall i | 0 <= i < |mailbox| :: mailbox[i] == l[n + |sep| + i];
  }

  lemma CutInMessageId(rcpt: string, m: string, allowed: set<string>) returns (other: string, m2: string)
    requires ParseRecipient(rcpt, allowed).Some? && m != "" && Trimmed(m) && forall d | d in allowed :: '@' !in d
    requires HasSeparator(LocalPart(rcpt)) && exists k :: Splittable(m, k)
    ensures SharesPayload(rcpt, m, other, m2, allowed)
  {
    var l := LocalPart(rcpt);
    var n, sep := SeparatorAfterDs(rcpt, allowed);
    NoAtInLocalPart(rcpt);
    hide ParseRecipient, LocalPart, DsEndsAt, HasSeparator, Payload, IsSeparator, Trimmed;
    var k :| Splittable(m, k);
    LongerMailbox(l, n, sep, m[..k]);
    other := WithMailbox(rcpt, allowed, n, sep, l[n + |sep|..] + "/" + m[..k]);
    m2 := m[k + 1..];
    RestStaysTrimmed(m, k);
    CutLater(ParseRecipient(rcpt, allowed).value.domain, l, m, k);
  }

  lemma LongerMailbox(l: string, n: nat, sep: string, more: string)
    requires n + |sep| <= |l| && l[n..n + |sep|] == sep && '@' !in l && '@' !in more
    ensures l[..n] + sep + (l[n + |sep|..] + "/" + more) == l + "/" + more
    ensures '@' !in l[n + |sep|..] + "/" + more
  {
  }

  lemma CutAgain(domain: string, l: string, m: string, k: nat)
    requires k < |l| && l[k] == '/'
    ensures Payload(domain, l[..k], l[k + 1..] + "/" + m) == Payload(domain, l, m)
  {
    assert l == l[..k] + "/" + l[k + 1..];
  }

  lemma CutLater(domain: string, l: string, m: string, k: nat)
    requires k < |m| && m[k] == '/'
    ensures Payload(domain, l + "/" + m[..k], m[k + 1..]) == Payload(domain, l, m)
  {
    assert m == m[..k] + "/" + m[k + 1..];
  }

  /** Where the separator of an accepted recipient stands, if its local part has one. There
      is no `/` before it or in it. */
  lemma SeparatorAfterDs(rcpt: string, allowed: set<string>) returns (n: nat, sep: string)
    requires ParseRecipient(rcpt, allowed).Some? && HasSeparator(LocalPart(rcpt))
    ensures IsSeparator(sep)
    ensures n < |LocalPart(rcpt)| && DsEndsAt(LocalPart(rcpt), n, ParseRecipient(rcpt, allowed).value.dsId)
    ensures n + |sep| <= |LocalPart(rcpt)| && LocalPart(rcpt)[n..n + |sep|] == sep
    ensures forall i | 0 <= i < n + |sep| :: LocalPart(rcpt)[i] != '/'
  {
    n := DsInLocalPart(rcpt, allowed);
    hide ParseRecipient, LocalPart;
    sep := SeparatorAt(LocalPart(rcpt), n, ParseRecipient(rcpt, allowed).value.dsId);
  }

  lemma SeparatorAt(l: string, n: nat, dsId: string) returns (sep: string)
    requires IsValidDsId(dsId) && DsEndsAt(l, n, dsId) && HasSeparator(l)
    ensures IsSeparator(sep) && n + |sep| <= |l| && l[n..n + |sep|] == sep
    ensures forall i | 0 <= i < n + |sep| :: l[i] != '/'
  {
    NoSeparatorInside(l[..n]);
    hide IsValidDsId;
    assert l[..|l|] == l;
    assert n < |l|;
    sep := if l[n] == '+' then "+" else "--";
    assert forall k | 0 <= k < n :: l[..n][k] == l[k];
  }

  /** The accepted recipient at the same data source and domain with another mailbox. */
  lemma WithMailbox(rcpt: string, allowed: set<string>, n: nat, sep: string, mailbox: string) returns (other: string)
    requires ParseRecipient(rcpt, allowed).Some? && forall d | d in allowed :: '@' !in d
    requires n < |LocalPart(rcpt)| && DsEndsAt(LocalPart(rcpt), n, ParseRecipient(rcpt, allowed).value.dsId)
    requires IsSeparator(sep) && '@' !in mailbox
    ensures ParseRecipient(other, allowed).Some?
    ensures ParseRecipient(other, allowed).value.domain == ParseRecipient(rcpt, allowed).value.domain
    ensures LocalPart(other) == LocalPart(rcpt)[..n] + sep + mailbox
  {
    AcceptedParts(rcpt, allowed, n);
    var ds, p := LocalPart(rcpt)[..n], ParseRecipient(rcpt, allowed).value;
    hide ParseRecipient, LocalPart, IsValidDsId, DsEndsAt, IsSeparator;
    other := Print(ds, sep, Some(mailbox), p.domain);
    ParsePrinted(ds, sep, Some(mailbox), p.domain, allowed);
    assert other == (ds + sep + mailbox) + ("@" + p.domain);
    NoAtBefore(ds, sep, mailbox);
    FirstAt(ds + sep + mailbox, "@" + p.domain);
  }

  lemma NoAtBefore(ds: string, sep: string, mailbox: string)
    requires '@' !in ds && '@' !in mailbox && IsSeparator(sep)
    ensures '@' !in ds + sep + mailbox
  {
  }

  lemma AcceptedParts(rcpt: string, allowed: set<string>, n: nat)
    requires ParseRecipient(rcpt, allowed).Some? && forall d | d in allowed :: '@' !in d
    requires n <= |LocalPart(rcpt)| && DsEndsAt(LocalPart(rcpt), n, ParseRecipient(rcpt, allowed).value.dsId)
    ensures var p := ParseRecipient(rcpt, allowed).value;
            && IsValidDsId(Lower(LocalPart(rcpt)[..n])) && '@' !in LocalPart(rcpt)[..n]
            && Lower(p.domain) == p.domain && p.domain in allowed && '@' !in p.domain
  {
    LowerTwice(rcpt[FindLast(rcpt, '@') + 1..]);
    NoAtInLocalPart(rcpt);
    hide IsValidDsId, SplitLocal;
  }

  predicate SharesLocalPart(rcpt: string, other: string, allowed: set<string>) {
    && ParseRecipient(rcpt, allowed).Some? && ParseRecipient(other, allowed).Some?
    && ParseRecipient(other, allowed).value.domain == ParseRecipient(rcpt, allowed).value.domain
    && LocalPart(other) == LocalPart(rcpt)
  }

  predicate SameKeyOtherAddress(rcpt: string, other: string, allowed: set<string>) {
    SharesLocalPart(rcpt, other, allowed) && ParseRecipient(other, allowed) != ParseRecipient(rcpt, allowed)
  }

  /** The key is cut at the first `@` but the address is parsed at the last one, so an
      accepted recipient shares every key with some differently addressed one exactly when
      its local part holds a separator: append `@z` to the mailbox. */
  lemma MailboxMergedIff(rcpt: string, allowed: set<string>)
    requires ParseRecipient(rcpt, allowed).Some?
    requires forall d | d in allowed :: '@' !in d
    ensures (exists other :: SameKeyOtherAddress(rcpt, other, allowed)) <==>
            HasSeparator(LocalPart(rcpt))
  {
    var l := LocalPart(rcpt);
    var n := DsInLocalPart(rcpt, allowed);
    if n < |l| {
      assert DashesAt(l, n) ==> ContainsDashes(l);
      assert l[n] == '+' ==> '+' in l;
      var other := Confusable(rcpt, allowed, n);
    } else {
      assert l[..n] == l;
      NoSeparatorInside(l);
      assert '+' !in l && !ContainsDashes(l);
      forall other | SharesLocalPart(rcpt, other, allowed)
        ensures ParseRecipient(other, allowed) == ParseRecipient(rcpt, allowed)
      {
        WholeLocal(rcpt, allowed);
        WholeLocal(other, allowed);
      }
    }
  }

  /** A differently addressed recipient with the same local part up to the first `@`. */
  lemma Confusable(rcpt: string, allowed: set<string>, n: nat) returns (other: string)
    requires ParseRecipient(rcpt, allowed).Some?
    requires forall d | d in allowed :: '@' !in d
    requires n < |LocalPart(rcpt)| && DsEndsAt(LocalPart(rcpt), n, ParseRecipient(rcpt, allowed).value.dsId)
    ensures SameKeyOtherAddress(rcpt, other, allowed)
  {
    var l, p := LocalPart(rcpt), ParseRecipient(rcpt, allowed).value;
    LowerTwice(rcpt[FindLast(rcpt, '@') + 1..]);
    var sep := if l[n] == '+' then "+" else "--";
    var rest := l[n + |sep|..];
    CutAtSeparator(l, n, sep);
    var tail := if p.mailbox == Some(rest + "@z") then "@zz" else "@z";
    assert |rest + "@z"| != |rest + "@zz"|;
    var n0 := DsInLocalPart(rcpt, allowed);
    other := Print(l[..n], sep, Some(rest + tail), p.domain);
    ParsePrinted(l[..n], sep, Some(rest + tail), p.domain, allowed);
    PrintedTail(l[..n], sep, rest, tail, p.domain);
    FirstAt(l, tail + "@" + p.domain);
  }

  lemma CutAtSeparator(l: string, n: nat, sep: string)
    requires n + |sep| <= |l| && l[n..n + |sep|] == sep
    ensures l == l[..n] + sep + l[n + |sep|..]
  {
  }

  lemma PrintedTail(ds: string, sep: string, rest: string, tail: string, domain: string)
    ensures Print(ds, sep, Some(rest + tail), domain) == (ds + sep + rest) + (tail + "@" + domain)
  {
  }

  lemma FirstAt(l: string, rest: string)
    requires '@' !in l && rest != "" && rest[0] == '@'
    ensures Find(l + rest, '@') == |l|
    ensures LocalPart(l + rest) == l
  {
    assert (l + rest)[|l|] == '@';
    assert forall k | 0 <= k < |l| :: (l + rest)[k] == l[k];
    Rejoin(l, rest);
  }

  /** Without a separator before its first `@`, an accepted address is just `ds_id@domain`. */
  lemma WholeLocal(rcpt: string, allowed: set<string>)
    requires ParseRecipient(rcpt, allowed).Some?
    requires '+' !in LocalPart(rcpt) && !ContainsDashes(LocalPart(rcpt))
    ensures ParseRecipient(rcpt, allowed).value.dsId == Lower(LocalPart(rcpt))
    ensures ParseRecipient(rcpt, allowed).value.mailbox == None
  {
    var n := DsInLocalPart(rcpt, allowed);
    var l := LocalPart(rcpt);
    assert DashesAt(l, n) ==> ContainsDashes(l);
    assert n == |l|;
    assert l[..n] == l;
    var local := rcpt[..FindLast(rcpt, '@')];
    var ds := SplitLocal(local).0;
    assert |Lower(ds)| == |Lower(l)|;
    assert |ds| == |l|;
    assert |l| < |rcpt| && rcpt[|l|] == '@';
    assert |ds| == |local|;
  }
}
