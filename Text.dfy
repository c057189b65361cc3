/** JavaScript's `includes`, and the suffix test and ASCII case folding
    that model a `$`-anchored `/i` regular expression over ASCII letters.
    `IsPrefix` and `IsSuffix` also state facts about keys. */
module Text {

  /** `p` is a prefix of `s`. */
  predicate IsPrefix(p: string, s: string) {
    |p| <= |s| && s[..|p|] == p
  }

  /** `p` is a suffix of `s`. */
  predicate IsSuffix(p: string, s: string) {
    |p| <= |s| && s[|s| - |p|..] == p
  }

  /** `p` occurs in `s` starting at index `i`. */
  predicate OccursAt(s: string, p: string, i: int) {
    0 <= i && i + |p| <= |s| && s[i..i + |p|] == p
  }

  /** `s.includes(p)`: tries every start position from the left. */
  function Contains(s: string, p: string): (found: bool)
    ensures p == [] ==> found
    ensures found ==> |p| <= |s|
    decreases |s|
  {
    IsPrefix(p, s) || (s != [] && Contains(s[1..], p))
  }

  /** The left-to-right scan finds `p` exactly when `p` occurs somewhere in `s`. */
  lemma {:induction false} ContainsIff(s: string, p: string)
    ensures Contains(s, p) <==> exists i :: OccursAt(s, p, i)
    decreases |s|
  {
    if IsPrefix(p, s) {
      assert OccursAt(s, p, 0);
    } else if s == [] {
      // only the empty pattern fits in the empty string, and it is a prefix
      assert p != [];
    } else {
      ContainsIff(s[1..], p);
      if Contains(s[1..], p) {
        var i :| OccursAt(s[1..], p, i);
        assert s[i + 1..i + 1 + |p|] == s[1..][i..i + |p|];
        assert OccursAt(s, p, i + 1);
      } else {
        forall i | 0 < i ensures !OccursAt(s, p, i) {
          if i + |p| <= |s| {
            assert !OccursAt(s[1..], p, i - 1);
            assert s[1..][i - 1..i - 1 + |p|] == s[i..i + |p|];
          }
        }
        assert !OccursAt(s, p, 0);
      }
    }
  }

  /** A string placed anywhere inside a message is found by `includes`. */
  lemma ContainsInfix(a: string, p: string, b: string)
    ensures Contains(a + p + b, p)
  {
    var s := a + p + b;
    assert s[|a|..|a| + |p|] == p;
    assert OccursAt(s, p, |a|);
    ContainsIff(s, p);
  }

  /** Lower-cases ASCII letters and leaves every other character alone. */
  function LowerAscii(c: char): char {
    if 'A' <= c <= 'Z' then (c as int + 32) as char else c
  }

  /** `s` with every ASCII letter lower-cased. */
  function Lowered(s: string): (r: string)
    ensures |r| == |s|
  {
    seq(|s|, i requires 0 <= i < |s| => LowerAscii(s[i]))
  }
}
