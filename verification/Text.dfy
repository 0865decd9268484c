/** Python string operations on ASCII text. */
module Text {
  import opened Wrappers

  function LowerChar(c: char): char {
    if 'A' <= c <= 'Z' then ((c as int) + 32) as char else c
  }

  function Lower(s: string): (r: string)
    ensures |r| == |s|
    ensures forall i | 0 <= i < |s| :: r[i] == LowerChar(s[i])
  {
    seq(|s|, i requires 0 <= i < |s| => LowerChar(s[i]))
  }

  /** Lower-casing moves the 26 capitals, each to its small letter, and nothing else. */
  const CAPITALS := "ABCDEFGHIJKLMNOPQRSTUVWXYZ"

  lemma LowerLetters()
    ensures forall c | c !in CAPITALS :: LowerChar(c) == c
  {
    forall c | 'A' <= c <= 'Z'
      ensures c in CAPITALS
    {
      assert CAPITALS[c as int - 'A' as int] == c;
    }
  }

  lemma LowerCapitals()
    ensures Lower(CAPITALS) == "abcdefghijklmnopqrstuvwxyz"
  {
  }

  lemma LowerTwice(s: string)
    ensures Lower(Lower(s)) == Lower(s)
  {
  }

  /** `s.find(c)`, with `|s|` standing for "not found". */
  function Find(s: string, c: char): (i: nat)
    ensures i <= |s|
    ensures i < |s| ==> s[i] == c
    ensures forall k | 0 <= k < i :: s[k] != c
  {
    if s == "" || s[0] == c then 0 else 1 + Find(s[1..], c)
  }

  /** `s.find("--")`, with `|s|` standing for "not found". */
  function FindDashes(s: string): (i: nat)
    ensures i <= |s|
    ensures i < |s| ==> DashesAt(s, i)
    ensures forall k | 0 <= k < i :: !DashesAt(s, k)
  {
    if s == "" || DashesAt(s, 0) then 0
    else
      var i := 1 + FindDashes(s[1..]);
      assert forall k | 0 <= k < |s| - 1 :: DashesAt(s[1..], k) <==> DashesAt(s, k + 1);
      assert forall k | 1 <= k < i :: DashesAt(s, k) ==> DashesAt(s[1..], k - 1);
      i
  }

  predicate DashesAt(s: string, i: int) {
    0 <= i && i + 1 < |s| && s[i] == '-' && s[i + 1] == '-'
  }

  predicate ContainsDashes(s: string) {
    exists i :: 0 <= i < |s| && DashesAt(s, i)
  }

  /** The index of the last `c`, or -1. */
  function FindLast(s: string, c: char): (i: int)
    ensures -1 <= i < |s|
    ensures i >= 0 ==> s[i] == c
    ensures forall k | i < k < |s| :: s[k] != c
  {
    if s == "" then -1
    else if s[|s| - 1] == c then |s| - 1
    else FindLast(s[..|s| - 1], c)
  }

  /** A concatenation splits where it was joined. */
  lemma Rejoin(s: string, t: string)
    ensures (s + t)[..|s|] == s && (s + t)[|s|..] == t
  {
  }

  lemma Cut(s: string, i: nat, j: nat)
    requires i <= j <= |s|
    ensures s == s[..i] + s[i..j] + s[j..]
  {
  }

  /** The last `c` of a text that ends in `c` and a part without it. */
  lemma {:induction false} LastIsJoint(s: string, c: char, t: string)
    requires c !in t
    ensures FindLast(s + [c] + t, c) == |s|
    decreases |t|
  {
    var u := s + [c] + t;
    if t == "" {
      assert u[|s|] == c;
    } else {
      assert u[|u| - 1] == t[|t| - 1];
      assert u[..|u| - 1] == s + [c] + t[..|t| - 1];
      LastIsJoint(s, c, t[..|t| - 1]);
    }
  }

  /** A tail without `c` does not matter for the last `c`. */
  lemma {:induction false} FindLastIgnores(s: string, t: string, c: char)
    requires c !in t
    ensures FindLast(s + t, c) == FindLast(s, c)
    decreases |t|
  {
    if t == "" {
      assert s + t == s;
    } else {
      assert (s + t)[|s + t| - 1] == t[|t| - 1];
      assert (s + t)[..|s + t| - 1] == s + t[..|t| - 1];
      FindLastIgnores(s, t[..|t| - 1], c);
    }
  }

  predicate StartsWith(s: string, prefix: string) {
    |prefix| <= |s| && s[..|prefix|] == prefix
  }

  /** ASCII whitespace as `str.strip` understands it. */
  predicate IsSpace(c: char) {
    c == ' ' || '\t' <= c <= '\r' || (28 <= c as int <= 31)
  }

  /** The ten ASCII codes that `str.isspace` accepts. */
  lemma SpaceChars(c: char)
    ensures IsSpace(c) <==> c as int in {9, 10, 11, 12, 13, 28, 29, 30, 31, 32}
  {
  }

  function StripLeft(s: string): (r: string)
    ensures |r| <= |s| && r == s[|s| - |r|..]
    ensures r == "" || !IsSpace(r[0])
    ensures forall i | 0 <= i < |s| - |r| :: IsSpace(s[i])
  {
    if s != "" && IsSpace(s[0]) then StripLeft(s[1..]) else s
  }

  function StripRight(s: string): (r: string)
    ensures |r| <= |s| && r == s[..|r|]
    ensures r == "" || !IsSpace(r[|r| - 1])
    ensures forall i | |r| <= i < |s| :: IsSpace(s[i])
  {
    if s != "" && IsSpace(s[|s| - 1]) then StripRight(s[..|s| - 1]) else s
  }

  /** `s.strip()`. */
  function Strip(s: string): string {
    StripRight(StripLeft(s))
  }

  /** Something is left after stripping exactly when some character is not white space. */
  lemma StripLeaves(s: string)
    ensures Strip(s) != "" <==> exists i :: 0 <= i < |s| && !IsSpace(s[i])
  {
    LeftLeaves(s);
    RightLeaves(StripLeft(s));
    hide StripLeft, StripRight, IsSpace;
  }

  lemma LeftLeaves(s: string)
    ensures StripLeft(s) != "" <==> exists i :: 0 <= i < |s| && !IsSpace(s[i])
    ensures StripLeft(s) != "" ==> !IsSpace(StripLeft(s)[0])
  {
    var left := StripLeft(s);
    hide StripLeft, IsSpace;
    if left != "" {
      assert s[|s| - |left|] == left[0];
    }
  }

  lemma RightLeaves(s: string)
    requires s == "" || !IsSpace(s[0])
    ensures StripRight(s) == "" <==> s == ""
  {
    hide StripRight, IsSpace;
  }

  predicate Trimmed(s: string) {
    s == "" || (!IsSpace(s[0]) && !IsSpace(s[|s| - 1]))
  }

  lemma StripTrimmed(s: string)
    requires Trimmed(s)
    ensures Strip(s) == s
  {
  }
}
