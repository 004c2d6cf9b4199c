/** The two string operations the protocol relies on: white-space trimming and literal search. */
module Text {

  /** White space and line terminators of ECMAScript, as `String.prototype.trim` removes them. */
  predicate IsSpace(c: char) {
    var n := c as int;
    0x09 <= n <= 0x0D || n == 0x20 || n == 0xA0 || n == 0x1680 || 0x2000 <= n <= 0x200A
    || n == 0x2028 || n == 0x2029 || n == 0x202F || n == 0x205F || n == 0x3000 || n == 0xFEFF
  }

  function TrimStart(s: string): string {
    if s == [] || !IsSpace(s[0]) then s else TrimStart(s[1..])
  }

  function TrimEnd(s: string): string {
    if s == [] || !IsSpace(s[|s| - 1]) then s else TrimEnd(s[..|s| - 1])
  }

  function Trim(s: string): string {
    TrimEnd(TrimStart(s))
  }

  lemma {:induction false} TrimStartDropsSpace(s: string) returns (n: nat)
    ensures n <= |s| && TrimStart(s) == s[n..] && (forall i | 0 <= i < n :: IsSpace(s[i]))
    ensures n < |s| ==> !IsSpace(s[n])
  {
    if s == [] || !IsSpace(s[0]) {
      n := 0;
    } else {
      var rest := s[1..];
      var m := TrimStartDropsSpace(rest);
      n := m + 1;
      assert rest[m..] == s[n..];
      forall i | 0 <= i < n ensures IsSpace(s[i]) {
        if i > 0 { assert rest[i - 1] == s[i]; }
      }
    }
  }

  lemma {:induction false} TrimEndDropsSpace(s: string) returns (n: nat)
    ensures n <= |s| && TrimEnd(s) == s[..n] && (forall i | n <= i < |s| :: IsSpace(s[i]))
    ensures n > 0 ==> !IsSpace(s[n - 1])
  {
    if s == [] || !IsSpace(s[|s| - 1]) {
      n := |s|;
    } else {
      var rest := s[..|s| - 1];
      n := TrimEndDropsSpace(rest);
      assert rest[..n] == s[..n];
      forall i | n <= i < |s| ensures IsSpace(s[i]) {
        if i < |s| - 1 { assert rest[i] == s[i]; }
      }
    }
  }

  lemma TakeOfDrop(s: string, from: nat, n: nat)
    requires from + n <= |s|
    ensures s[from..][..n] == s[from..from + n]
  {
    var (x, y) := (s[from..][..n], s[from..from + n]);
    forall k | 0 <= k < n ensures x[k] == y[k] { assert x[k] == s[from..][k] == s[from + k]; }
    assert x == y;
  }

  lemma SpaceAfter(s: string, from: nat, n: nat, i: nat)
    requires from + n <= i < |s| && forall j | n <= j < |s| - from :: IsSpace(s[from..][j])
    ensures IsSpace(s[i])
  {
    var j := i - from;
    assert s[from..][j] == s[i];
  }

  /** Trimming drops the white space at both ends and nothing else. */
  lemma TrimDropsOuterSpace(s: string) returns (from: nat, until: nat)
    ensures from <= until <= |s| && Trim(s) == s[from..until]
    ensures forall i | 0 <= i < |s| && !(from <= i < until) :: IsSpace(s[i])
    ensures Trim(s) != "" ==> !IsSpace(s[from]) && !IsSpace(s[until - 1])
  {
    from := TrimStartDropsSpace(s);
    var n := TrimEndDropsSpace(s[from..]);
    until := from + n;
    TakeOfDrop(s, from, n);
    forall i | until <= i < |s| ensures IsSpace(s[i]) { SpaceAfter(s, from, n, i); }
    if n > 0 { assert s[from..][n - 1] == s[until - 1]; }
  }

  lemma TrimKeepsOneLetter(s: string)
    requires |s| == 1 && !IsSpace(s[0])
    ensures Trim(s) == s
  {
  }

  /** Does `pattern` occur in `s` at position `i`? */
  predicate OccursAt(s: string, pattern: string, i: int) {
    0 <= i && i + |pattern| <= |s| && s[i..i + |pattern|] == pattern
  }

  predicate Includes(s: string, pattern: string) {
    exists i :: 0 <= i <= |s| && OccursAt(s, pattern, i)
  }

  /** `[a-f0-9]{64}` */
  predicate HexDigest(s: string) {
    |s| == 64 && forall i | 0 <= i < 64 :: '0' <= s[i] <= '9' || 'a' <= s[i] <= 'f'
  }
}
