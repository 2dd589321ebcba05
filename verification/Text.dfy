/** White space as `trim` sees it. */
module Text {

  predicate White(c: char) {
    || '\U{0009}' <= c <= '\U{000D}' || c == ' ' || c == '\U{0085}' || c == '\U{00A0}'
    || c == '\U{1680}' || '\U{2000}' <= c <= '\U{200A}' || c == '\U{2028}' || c == '\U{2029}'
    || c == '\U{202F}' || c == '\U{205F}' || c == '\U{3000}'
  }

  predicate Blank(s: string) {
    forall i :: 0 <= i < |s| ==> White(s[i])
  }

  function TrimStart(s: string): string {
    if s != "" && White(s[0]) then TrimStart(s[1..]) else s
  }

  function TrimEnd(s: string): string {
    if s != "" && White(s[|s| - 1]) then TrimEnd(s[..|s| - 1]) else s
  }

  function Trim(s: string): string {
    TrimEnd(TrimStart(s))
  }

  lemma {:induction false} TrimStartCuts(s: string) returns (i: nat)
    ensures i <= |s| && Blank(s[..i]) && TrimStart(s) == s[i..]
    ensures i < |s| ==> !White(s[i])
  {
    i := 0;
    if s != "" && White(s[0]) {
      var j := TrimStartCuts(s[1..]);
      i := j + 1;
      assert s[..i] == [s[0]] + s[1..][..j];
      assert s[1..][j..] == s[i..];
    }
  }

  lemma {:induction false} TrimEndCuts(s: string) returns (j: nat)
    ensures j <= |s| && Blank(s[j..]) && TrimEnd(s) == s[..j]
    ensures j > 0 ==> !White(s[j - 1])
  {
    j := |s|;
    if s != "" && White(s[|s| - 1]) {
      var front := s[..|s| - 1];
      j := TrimEndCuts(front);
      assert s[j..] == front[j..] + [s[|s| - 1]];
      assert front[..j] == s[..j];
    }
  }

  /** Trimming takes white space off both ends, all of it, and nothing else. */
  lemma TrimCuts(s: string) returns (i: nat, j: nat)
    ensures i <= j <= |s| && Trim(s) == s[i..j] && Blank(s[..i]) && Blank(s[j..])
    ensures i < j ==> !White(s[i]) && !White(s[j - 1])
    ensures Trim(s) == "" <==> Blank(s)
  {
    i := TrimStartCuts(s);
    var k := TrimEndCuts(s[i..]);
    j := i + k;
    assert s[i..][..k] == s[i..j] && s[i..][k..] == s[j..];
    if k > 0 {
      assert s[i..][k - 1] == s[j - 1];
    } else {
      assert s == s[..i] + s[j..];
    }
  }
}
