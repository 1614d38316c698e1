/** The change-detection fingerprint of `load_dimensions.py`: each argument
    is turned into text (`None` into the empty string), the texts are joined
    without a separator, and the MD5 hex digest of the result is stored as
    `source_row_hash`. MD5 itself is a parameter `digest`; the model is
    about the pre-image that is fed to it. */
module Fingerprint {
  import opened Values

  /** An argument as the text Python's `str()` gives for it, or `None`. */
  function ArgText(arg: Option<string>): string {
    arg.GetOr("")
  }

  /** The string that is hashed: the argument texts concatenated in order. */
  function PreImage(args: seq<Option<string>>): string {
    if |args| == 0 then "" else PreImage(args[..|args| - 1]) + ArgText(args[|args| - 1])
  }

  /** `calculate_hash(*args)` with MD5 given as `digest`. */
  function CalculateHash(digest: string -> string, args: seq<Option<string>>): string {
    digest(PreImage(args))
  }

  /** The pre-image is a monoid homomorphism: hashing `a + b` hashes the
      joined texts of `a` followed by those of `b`. */
  lemma {:induction false} PreImageAppend(a: seq<Option<string>>, b: seq<Option<string>>)
    ensures PreImage(a + b) == PreImage(a) + PreImage(b)
  {
    if |b| == 0 {
      assert a + b == a;
    } else {
      var b' := b[..|b| - 1];
      assert (a + b)[..|a + b| - 1] == a + b';
      PreImageAppend(a, b');
    }
  }

  /** Joining the argument texts from the left gives the same pre-image. */
  function JoinTexts(args: seq<Option<string>>): string {
    if |args| == 0 then "" else ArgText(args[0]) + JoinTexts(args[1..])
  }

  lemma {:induction false} PreImageIsJoin(args: seq<Option<string>>)
    ensures PreImage(args) == JoinTexts(args)
  {
    if |args| > 0 {
      assert args == [args[0]] + args[1..];
      PreImageAppend([args[0]], args[1..]);
      PreImageIsJoin(args[1..]);
      assert PreImage([args[0]]) == PreImage([]) + ArgText(args[0]);
    }
  }

  /** A `None` argument hashes exactly like an empty-string argument. */
  lemma NoneHashesAsEmpty(digest: string -> string, args: seq<Option<string>>, i: nat)
    requires i < |args|
    ensures CalculateHash(digest, args[i := None]) == CalculateHash(digest, args[i := Some("")])
  {
    var a := args[i := None];
    var b := args[i := Some("")];
    assert a == a[..i] + [None] + a[i + 1..];
    assert b == b[..i] + [Some("")] + b[i + 1..];
    assert a[..i] == b[..i] && a[i + 1..] == b[i + 1..];
    PreImageAppend(a[..i] + [None], a[i + 1..]);
    PreImageAppend(a[..i], [None]);
    PreImageAppend(b[..i] + [Some("")], b[i + 1..]);
    PreImageAppend(b[..i], [Some("")]);
    assert PreImage([None]) == PreImage([]) + ArgText(None);
    assert PreImage([Some("")]) == PreImage([]) + ArgText(Some(""));
  }

  /** Argument tuples with equal texts (after `None` becomes empty) get equal
      hashes, whatever the digest. */
  lemma EqualTextsEqualHashes(digest: string -> string, a: seq<Option<string>>, b: seq<Option<string>>)
    requires |a| == |b|
    requires forall i :: 0 <= i < |a| ==> ArgText(a[i]) == ArgText(b[i])
    ensures CalculateHash(digest, a) == CalculateHash(digest, b)
  {
    PreImageIsJoin(a);
    PreImageIsJoin(b);
    JoinTextsPointwise(a, b);
  }

  lemma {:induction false} JoinTextsPointwise(a: seq<Option<string>>, b: seq<Option<string>>)
    requires |a| == |b|
    requires forall i :: 0 <= i < |a| ==> ArgText(a[i]) == ArgText(b[i])
    ensures JoinTexts(a) == JoinTexts(b)
  {
    if |a| > 0 {
      assert ArgText(a[0]) == ArgText(b[0]);
      assert forall i :: 0 <= i < |a[1..]| ==> a[1..][i] == a[i + 1] && b[1..][i] == b[i + 1];
      JoinTextsPointwise(a[1..], b[1..]);
    }
  }

  /** Without a separator, moving text across an argument boundary is not
      detected: `("ab", "c")` and `("a", "bc")` have the same fingerprint. */
  lemma BoundaryShiftCollides(digest: string -> string, a: string, b: string, c: string)
    ensures CalculateHash(digest, [Some(a + b), Some(c)]) == CalculateHash(digest, [Some(a), Some(b + c)])
  {
    assert [Some(a + b), Some(c)][..1] == [Some(a + b)];
    assert [Some(a), Some(b + c)][..1] == [Some(a)];
    assert PreImage([Some(a + b)]) == PreImage([]) + (a + b);
    assert PreImage([Some(a)]) == PreImage([]) + a;
    assert PreImage([Some(a + b), Some(c)]) == (a + b) + c;
    assert PreImage([Some(a), Some(b + c)]) == a + (b + c);
    assert (a + b) + c == a + (b + c);
  }
}
