/** Key identifiers and the chord predicate of the chord-hold detector.
    Key names are strings; the detector compares them case-insensitively by
    lower-casing both the names it receives and the target names. */
module Keys {

  predicate IsUpper(c: char) {
    'A' <= c <= 'Z'
  }

  /** Lower-cases one character (ASCII letters only): 'A'..'Z' become
      'a'..'z', everything else is kept. */
  function LowerChar(c: char): (r: char)
    ensures !IsUpper(r)
    ensures IsUpper(c) ==> r as int == c as int + 32
    ensures !IsUpper(c) ==> r == c
  {
    if IsUpper(c) then (c as int + 32) as char else c
  }

  /** No character of `s` is an upper-case letter. */
  predicate NoUpper(s: string) {
    forall i :: 0 <= i < |s| ==> !IsUpper(s[i])
  }

  /** `toLowerCase()` on a key name. */
  function Lower(s: string): (r: string)
    ensures |r| == |s|
    ensures NoUpper(r)
  {
    if s == [] then [] else [LowerChar(s[0])] + Lower(s[1..])
  }

  /** Character k of the lower-cased name is character k lower-cased. */
  lemma {:induction false} LowerAt(s: string, k: nat)
    requires k < |s|
    ensures Lower(s)[k] == LowerChar(s[k])
  {
    if k > 0 {
      LowerAt(s[1..], k - 1);
    }
  }

  /** Two characters that differ at most in case: equal, or one is an
      upper-case letter and the other its lower-case form. */
  predicate SameCharUpToCase(a: char, b: char) {
    || a == b
    || (IsUpper(a) && b as int == a as int + 32)
    || (IsUpper(b) && a as int == b as int + 32)
  }

  /** Two names that differ at most in case, position by position. */
  predicate SameUpToCase(a: string, b: string) {
    |a| == |b| && forall i :: 0 <= i < |a| ==> SameCharUpToCase(a[i], b[i])
  }

  lemma LowerCharEqualIff(a: char, b: char)
    ensures LowerChar(a) == LowerChar(b) <==> SameCharUpToCase(a, b)
  {
  }

  /** Key normalisation identifies exactly the names that differ only in case:
      "C" and "c" name one key, "C" and "O" stay apart. */
  lemma LowerEqualIff(a: string, b: string)
    ensures Lower(a) == Lower(b) <==> SameUpToCase(a, b)
  {
    if |a| == |b| {
      forall i | 0 <= i < |a|
        ensures Lower(a)[i] == Lower(b)[i] <==> SameCharUpToCase(a[i], b[i])
      {
        LowerAt(a, i);
        LowerAt(b, i);
        LowerCharEqualIff(a[i], b[i]);
      }
      if SameUpToCase(a, b) {
        assert Lower(a) == Lower(b);
      }
    }
  }

  /** A name is its own lower-case form exactly when it has no upper-case letter. */
  lemma {:induction false} LowerFixedIff(s: string)
    ensures Lower(s) == s <==> NoUpper(s)
  {
    // Lower(s) == s ==> NoUpper(s) is the function's own postcondition.
    if s != [] && NoUpper(s) {
      assert NoUpper(s[1..]) by {
        forall i | 0 <= i < |s[1..]| ensures !IsUpper(s[1..][i]) {
          assert s[1..][i] == s[i + 1];
        }
      }
      LowerFixedIff(s[1..]);
    }
  }

  /** Lower-casing twice is lower-casing once. */
  lemma LowerIdempotent(s: string)
    ensures Lower(Lower(s)) == Lower(s)
  {
    LowerFixedIff(Lower(s));
  }

  /** `checkChord`: every target name, lower-cased, is among the pressed keys.
      Written, like `Array.prototype.every`, as a walk over the targets. */
  function ChordSatisfied(targets: seq<string>, pressed: set<string>): (r: bool)
    ensures r ==> forall i :: 0 <= i < |targets| ==> Lower(targets[i]) in pressed
    ensures targets == [] ==> r
  {
    if targets == [] then true
    else Lower(targets[0]) in pressed && ChordSatisfied(targets[1..], pressed)
  }

  /** The walk agrees with the universally quantified reading, in both directions. */
  lemma {:induction false} ChordSatisfiedIff(targets: seq<string>, pressed: set<string>)
    ensures ChordSatisfied(targets, pressed) <==>
            forall i :: 0 <= i < |targets| ==> Lower(targets[i]) in pressed
  {
    if targets != [] {
      ChordSatisfiedIff(targets[1..], pressed);
      assert forall i :: 1 <= i < |targets| ==> targets[i] == targets[1..][i - 1];
    }
  }

  /** An empty target list is always satisfied (nothing rejects it). */
  lemma EmptyChordAlwaysSatisfied(pressed: set<string>)
    ensures ChordSatisfied([], pressed)
  {
  }

  /** Pressing more keys never breaks a satisfied chord. */
  lemma {:induction false} ChordMonotone(targets: seq<string>, pressed: set<string>, more: set<string>)
    requires pressed <= more
    requires ChordSatisfied(targets, pressed)
    ensures ChordSatisfied(targets, more)
  {
    if targets != [] {
      ChordMonotone(targets[1..], pressed, more);
    }
  }

  /** Releasing a key that no target names leaves the chord as it was. */
  lemma {:induction false} ReleaseOfNonTarget(targets: seq<string>, pressed: set<string>, k: string)
    requires forall i :: 0 <= i < |targets| ==> Lower(targets[i]) != k
    ensures ChordSatisfied(targets, pressed - {k}) == ChordSatisfied(targets, pressed)
  {
    if targets != [] {
      assert forall i :: 0 <= i < |targets[1..]| ==> targets[1..][i] == targets[i + 1];
      ReleaseOfNonTarget(targets[1..], pressed, k);
    }
  }
}
