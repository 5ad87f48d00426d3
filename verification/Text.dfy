/** Trimming and letter case, for ASCII text. */
module Text {
  predicate IsSpace(c: char) {
    c == ' ' || c == '\t' || c == '\n' || c == '\r' || c == '\U{B}' || c == '\U{C}'
  }

  function TrimLeft(s: string): string {
    if s != "" && IsSpace(s[0]) then TrimLeft(s[1..]) else s
  }

  function TrimRight(s: string): string {
    if s != "" && IsSpace(s[|s| - 1]) then TrimRight(s[..|s| - 1]) else s
  }

  function Trim(s: string): string {
    TrimRight(TrimLeft(s))
  }

  predicate Blank(s: string) {
    Trim(s) == ""
  }

  predicate RequiredTrimmed(s: string) {
    !Blank(s) && s == Trim(s)
  }

  function LowerChar(c: char): char {
    if 'A' <= c <= 'Z' then c + 'a' - 'A' else c
  }

  function UpperChar(c: char): char {
    if 'a' <= c <= 'z' then c - 'a' + 'A' else c
  }

  function Lower(s: string): string {
    seq(|s|, i requires 0 <= i < |s| => LowerChar(s[i]))
  }

  function Upper(s: string): string {
    seq(|s|, i requires 0 <= i < |s| => UpperChar(s[i]))
  }

  predicate LowerTrimmed(s: string) {
    !Blank(s) && s == Lower(Trim(s))
  }

  predicate UpperTrimmed(s: string) {
    !Blank(s) && s == Upper(Trim(s))
  }

  lemma {:induction false} TrimLeftStops(s: string)
    ensures TrimLeft(s) == "" || !IsSpace(TrimLeft(s)[0])
  {
    if s == "" || !IsSpace(s[0]) {
    } else {
      TrimLeftStops(s[1..]);
    }
  }

  lemma {:induction false} TrimRightStops(s: string)
    ensures TrimRight(s) == "" || !IsSpace(TrimRight(s)[|TrimRight(s)| - 1])
    ensures TrimRight(s) <= s
  {
    if s == "" || !IsSpace(s[|s| - 1]) {
    } else {
      TrimRightStops(s[..|s| - 1]);
    }
  }

  /** Trimmed text stays as it is when trimmed again. */
  lemma TrimIsIdempotent(s: string)
    ensures Trim(Trim(s)) == Trim(s)
  {
    TrimLeftStops(s);
    TrimRightStops(TrimLeft(s));
    var t := Trim(s);
    if t != "" {
      assert t[0] == TrimLeft(s)[0];
      assert TrimLeft(t) == t && TrimRight(t) == t;
    }
  }

  lemma PlainName(name: string)
    requires name != "" && !IsSpace(name[0]) && !IsSpace(name[|name| - 1])
    ensures RequiredTrimmed(name)
  {
  }

  lemma PlainLower(name: string)
    requires name != "" && !IsSpace(name[0]) && !IsSpace(name[|name| - 1])
    requires forall k | 0 <= k < |name| :: !('A' <= name[k] <= 'Z')
    ensures LowerTrimmed(name)
  {
    PlainName(name);
    assert name == Lower(name);
  }

  lemma PlainUpper(name: string)
    requires name != "" && !IsSpace(name[0]) && !IsSpace(name[|name| - 1])
    requires forall k | 0 <= k < |name| :: !('a' <= name[k] <= 'z')
    ensures UpperTrimmed(name)
  {
    PlainName(name);
    assert name == Upper(name);
  }

  lemma EmptyIsBlank()
    ensures Blank("")
  {
  }
}

/** What trimming and letter case are, letter by letter. */
module TextLaws {
  import opened Text

  predicate Space(c: char) {
    c in {' ', '\t', '\n', '\r', '\U{B}', '\U{C}'}
  }

  /** Something to read, with no space around it. */
  predicate Clean(s: string) {
    s != "" && !Space(s[0]) && !Space(s[|s| - 1])
  }

  predicate CleanLower(s: string) {
    Clean(s) && forall k | 0 <= k < |s| :: !('A' <= s[k] <= 'Z')
  }

  predicate CleanUpper(s: string) {
    Clean(s) && forall k | 0 <= k < |s| :: !('a' <= s[k] <= 'z')
  }

  predicate AllSpace(s: string) {
    forall k | 0 <= k < |s| :: Space(s[k])
  }

  lemma {:induction false} TrimLeftCuts(s: string) returns (n: int)
    ensures 0 <= n <= |s| && TrimLeft(s) == s[n..]
    ensures (forall k | 0 <= k < n :: Space(s[k])) && (n == |s| || !Space(s[n]))
  {
    if s == "" || !IsSpace(s[0]) {
      n := 0;
    } else {
      n := TrimLeftCuts(s[1..]);
      assert s[1..][n..] == s[n + 1..];
      n := n + 1;
      forall k | 0 < k < n ensures Space(s[k]) {
        assert s[1..][k - 1] == s[k];
      }
    }
  }

  lemma {:induction false} TrimRightCuts(s: string) returns (n: int)
    ensures 0 <= n <= |s| && TrimRight(s) == s[..n]
    ensures (forall k | n <= k < |s| :: Space(s[k])) && (n == 0 || !Space(s[n - 1]))
  {
    if s == "" || !IsSpace(s[|s| - 1]) {
      n := |s|;
    } else {
      n := TrimRightCuts(s[..|s| - 1]);
    }
  }

  /** What is trimmed is the text between the first and the last character that is no space. */
  lemma TrimCuts(s: string) returns (m: int, n: int)
    ensures 0 <= m <= n <= |s| && Trim(s) == s[m..n]
    ensures forall k | 0 <= k < m || n <= k < |s| :: Space(s[k])
    ensures m == n || (!Space(s[m]) && !Space(s[n - 1]))
    ensures m == n ==> AllSpace(s)
  {
    m := TrimLeftCuts(s);
    var rest := s[m..];
    n := TrimRightCuts(rest);
    hide TrimLeft, TrimRight;
    assert n == 0 || rest[n - 1] == s[m + n - 1];
    assert rest[..n] == s[m..m + n];
    n := m + n;
    forall k | n <= k < |s| ensures Space(s[k]) {
      assert rest[k - m] == s[k];
    }
  }

  lemma BlankIff(s: string)
    ensures Blank(s) <==> AllSpace(s)
  {
    var m, n := TrimCuts(s);
    hide Trim;
  }

  lemma TrimmedIff(s: string)
    ensures s == Trim(s) <==> s == "" || Clean(s)
    ensures RequiredTrimmed(s) <==> Clean(s)
    ensures |Trim(s)| == |s| ==> Trim(s) == s
  {
    var m, n := TrimCuts(s);
    assert s == s[0..|s|];
    hide Trim;
  }

  lemma LowerIs(s: string)
    ensures |Lower(s)| == |s| && (s == Lower(s) <==> forall k | 0 <= k < |s| :: !('A' <= s[k] <= 'Z'))
  {
    assert s == Lower(s) <==> forall k | 0 <= k < |s| :: s[k] == Lower(s)[k];
  }

  lemma UpperIs(s: string)
    ensures |Upper(s)| == |s| && (s == Upper(s) <==> forall k | 0 <= k < |s| :: !('a' <= s[k] <= 'z'))
  {
    assert s == Upper(s) <==> forall k | 0 <= k < |s| :: s[k] == Upper(s)[k];
  }

  lemma CaseIff(s: string)
    ensures LowerTrimmed(s) <==> CleanLower(s)
    ensures UpperTrimmed(s) <==> CleanUpper(s)
  {
    TrimmedIff(s);
    LowerIs(s);
    UpperIs(s);
    LowerIs(Trim(s));
    UpperIs(Trim(s));
    hide Trim, Lower, Upper;
  }
}
