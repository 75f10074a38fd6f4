/**
 * String helpers shared by the server and the dashboard: JavaScript's
 * `toLowerCase` (restricted to ASCII) and `includes`.
 */
module Text {
  import opened Wrappers

  /** JavaScript truthiness of an optional string field: present and non-empty. */
  predicate Truthy(v: Option<string>) {
    v.Some? && v.value != ""
  }

  predicate IsUpper(c: char) {
    'A' <= c <= 'Z'
  }

  /** The lower-case form of one character; only ASCII letters change. */
  function LowerChar(c: char): (r: char)
    ensures !IsUpper(r)
    ensures IsUpper(c) ==> r as int == c as int + 32
    ensures !IsUpper(c) ==> r == c
  {
    if IsUpper(c) then (c as int + 32) as char else c
  }

  /** `s.toLowerCase()`: every character lowered, nothing added or removed. */
  function ToLower(s: string): (r: string)
    ensures |r| == |s|
    ensures forall i :: 0 <= i < |s| ==> r[i] == LowerChar(s[i])
  {
    if s == [] then [] else [LowerChar(s[0])] + ToLower(s[1..])
  }

  /** Two strings are equal up to ASCII case. */
  predicate EqualIgnoringCase(s: string, t: string) {
    |s| == |t| && forall i :: 0 <= i < |s| ==> LowerChar(s[i]) == LowerChar(t[i])
  }

  /** Strings equal up to case have the same lower-case form, and conversely. */
  lemma ToLowerIgnoresCase(s: string, t: string)
    ensures ToLower(s) == ToLower(t) <==> EqualIgnoringCase(s, t)
  {
    if EqualIgnoringCase(s, t) {
      assert forall i :: 0 <= i < |s| ==> ToLower(s)[i] == ToLower(t)[i];
    }
    if ToLower(s) == ToLower(t) {
      assert forall i :: 0 <= i < |s| ==> LowerChar(s[i]) == ToLower(t)[i];
    }
  }

  /** `t` occurs in `s` starting at position `i`. */
  ghost predicate OccursAt(s: string, t: string, i: int) {
    0 <= i && i + |t| <= |s| && s[i..i + |t|] == t
  }

  /** `s.includes(t)`, searching from the left. */
  function Contains(s: string, t: string): bool
    decreases |s|
  {
    if |t| <= |s| && s[..|t|] == t then true
    else if s == [] then false
    else Contains(s[1..], t)
  }

  /** `Contains` finds `t` exactly when `t` occurs somewhere in `s`. */
  lemma {:induction false} ContainsIffOccurs(s: string, t: string)
    ensures Contains(s, t) <==> exists i :: OccursAt(s, t, i)
    decreases |s|
  {
    if |t| <= |s| && s[..|t|] == t {
      assert OccursAt(s, t, 0);
    } else if s != [] {
      ContainsIffOccurs(s[1..], t);
      if Contains(s[1..], t) {
        var i :| OccursAt(s[1..], t, i);
        assert s[1..][i..i + |t|] == s[i + 1..i + 1 + |t|];
        assert OccursAt(s, t, i + 1);
      } else {
        forall i | 1 <= i && OccursAt(s, t, i) ensures OccursAt(s[1..], t, i - 1) {
          assert s[1..][i - 1..i - 1 + |t|] == s[i..i + |t|];
        }
      }
    }
  }
}
