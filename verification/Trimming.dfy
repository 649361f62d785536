/** What stripping a text leaves, told from its characters. */
module Trimming {
  import Routing = P3Routing

  predicate IsBlank(s: string) {
    forall i | 0 <= i < |s| :: Routing.IsSpace(s[i])
  }

  /** `t` is `s` without the white space at both ends. */
  ghost predicate IsTrimmed(s: string, t: string) {
    exists a, b | 0 <= a <= b <= |s| :: IsTrim(s, a, b) && t == s[a..b]
  }

  predicate IsTrim(s: string, a: nat, b: nat)
    requires a <= b <= |s|
  {
    && (forall i | 0 <= i < |s| && (i < a || b <= i) :: Routing.IsSpace(s[i]))
    && (a < b ==> !Routing.IsSpace(s[a]) && !Routing.IsSpace(s[b - 1]))
  }

  lemma SliceOfRest(s: string, a: nat, b: nat)
    requires s != "" && a <= b < |s|
    ensures s[1..][a..b] == s[a + 1..b + 1]
  {
  }

  lemma TrimFront(s: string, t: string)
    requires s != "" && Routing.IsSpace(s[0]) && IsTrimmed(s[1..], t)
    ensures IsTrimmed(s, t)
  {
    hide Routing.IsSpace;
    var rest := s[1..];
    var a, b :| 0 <= a <= b <= |rest| && IsTrim(rest, a, b) && t == rest[a..b];
    forall i | 0 <= i < |s| && (i < a + 1 || b + 1 <= i) ensures Routing.IsSpace(s[i]) {
      if i > 0 {
        assert rest[i - 1] == s[i];
      }
    }
    assert a < b ==> rest[a] == s[a + 1] && rest[b - 1] == s[b];
    assert IsTrim(s, a + 1, b + 1);
    SliceOfRest(s, a, b);
  }

  lemma TrimBack(s: string, t: string)
    requires s != "" && Routing.IsSpace(s[|s| - 1]) && IsTrimmed(s[..|s| - 1], t)
    ensures IsTrimmed(s, t)
  {
    hide Routing.IsSpace;
    var rest := s[..|s| - 1];
    var a, b :| 0 <= a <= b <= |rest| && IsTrim(rest, a, b) && t == rest[a..b];
    assert forall i | 0 <= i < |rest| :: s[i] == rest[i];
    assert s[a..b] == t && IsTrim(s, a, b);
  }

  lemma TrimmedBlank(s: string, t: string)
    requires IsTrimmed(s, t)
    ensures t == "" <==> IsBlank(s)
  {
    var a, b :| 0 <= a <= b <= |s| && IsTrim(s, a, b) && t == s[a..b];
    assert a < b ==> !Routing.IsSpace(s[a]);
  }

  lemma {:induction false} StripIsTrimmed(s: string)
    ensures IsTrimmed(s, Routing.Strip(s))
    decreases |s|
  {
    hide Routing.IsSpace;
    if s == "" {
      assert IsTrim(s, 0, 0) && s[0..0] == s;
    } else if Routing.IsSpace(s[0]) {
      StripIsTrimmed(s[1..]);
      TrimFront(s, Routing.Strip(s[1..]));
    } else if Routing.IsSpace(s[|s| - 1]) {
      StripIsTrimmed(s[..|s| - 1]);
      TrimBack(s, Routing.Strip(s[..|s| - 1]));
    } else {
      assert s[0..|s|] == s && IsTrim(s, 0, |s|);
    }
  }

  lemma StripTrims(s: string)
    ensures IsTrimmed(s, Routing.Strip(s)) && (Routing.Strip(s) == "" <==> IsBlank(s))
  {
    StripIsTrimmed(s);
    TrimmedBlank(s, Routing.Strip(s));
  }

  /** A text has one trimming. */
  lemma OneTrimming(s: string, t: string, u: string)
    requires IsTrimmed(s, u)
    ensures IsTrimmed(s, t) <==> t == u
  {
    var c, d :| 0 <= c <= d <= |s| && IsTrim(s, c, d) && u == s[c..d];
    if IsTrimmed(s, t) {
      var a, b :| 0 <= a <= b <= |s| && IsTrim(s, a, b) && t == s[a..b];
      if a < b {
        assert c <= a < d && c < b <= d;
        assert a <= c && d <= b;
      } else {
        assert c == d;
      }
    }
  }
}
