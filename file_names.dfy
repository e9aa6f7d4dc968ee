/** `stripPath` and `stripExtension` (binpack2d_gorilla.hpp): the file-name
    surgery behind sprite names and `.gorilla` side-car paths. */
module FileNames {
  import opened Wrappers
  import opened Text

  /** Where `stripPath` cuts `f`: just after a separator (or at 0), with no
      `/` and no later `\` in what is kept.  A `\` is cut after only when it
      is neither the first character nor right after the last `/` (the
      source compares `symbolPos > startPos`, not `>=`); such a `\` is kept
      as the first character of the result instead. */
  ghost predicate BaseNameCut(f: string, n: nat)
  {
    && n <= |f|
    && (n > 0 ==> f[n - 1] == '/' || f[n - 1] == '\\')
    && (forall k :: n <= k < |f| ==> f[k] != '/')
    && (forall k :: n < k < |f| ==> f[k] != '\\')
    && (n < |f| && f[n] == '\\' ==> n == 0 || f[n - 1] == '/')
    && (n > 0 && f[n - 1] == '\\' ==> n >= 2 && f[n - 2] != '/')
  }

  /** `stripPath`: the part of `f` after its last directory separator. */
  function StripPath(f: string): (r: string)
    ensures |r| <= |f| && r == f[|f| - |r|..]
    ensures BaseNameCut(f, |f| - |r|)
    ensures ('/' !in f && '\\' !in f) ==> r == f
  {
    var start := match FindLast(f, '/') case None => 0 case Some(p) => p + 1;
    var b := FindLast(f, '\\');
    var cut := if b.Some? && b.value > start then b.value + 1 else start;
    f[cut..]
  }

  /** There is exactly one place `stripPath` can cut: any cut with the
      properties above is the one it makes. */
  lemma {:induction false} BaseNameCutUnique(f: string, n: nat, m: nat)
    requires BaseNameCut(f, n) && BaseNameCut(f, m)
    ensures n == m
  {
  }

  /** `stripPath` keeps exactly the characters after its cut. */
  lemma {:induction false} StripPathIsBaseName(f: string, n: nat)
    requires BaseNameCut(f, n)
    ensures StripPath(f) == f[n..]
  {
    BaseNameCutUnique(f, n, |f| - |StripPath(f)|);
  }

  /** `stripExtension`: `f` up to (not including) its last `.`. */
  function StripExtension(f: string): (r: string)
    ensures r <= f
    ensures '.' !in f ==> r == f
    ensures '.' in f ==> |r| < |f| && f[|r|] == '.' && forall k :: |r| < k < |f| ==> f[k] != '.'
  {
    Substr(f, 0, FindLast(f, '.'))
  }

  /** Stripping the extension undoes appending one that has no dot. */
  lemma {:induction false} StripExtensionOfAppend(s: string, ext: string)
    requires '.' !in ext
    ensures StripExtension(s + "." + ext) == s
  {
    var f := s + "." + ext;
    assert f[|s|] == '.';
    assert forall k :: |s| < k < |f| ==> f[k] == ext[k - |s| - 1];
    assert f[..|s|] == s;
  }

  const GorillaExtension: string := ".gorilla"

  /** The path of the `.gorilla` side-car that goes with an image, and of
      the descriptor that goes with an output atlas. */
  function SideCarPath(f: string): (r: string)
    ensures StripExtension(r) == StripExtension(f)
    ensures |r| >= 8 && r[|r| - 8..] == GorillaExtension
  {
    StripExtensionOfAppend(StripExtension(f), "gorilla");
    assert StripExtension(f) + GorillaExtension == StripExtension(f) + "." + "gorilla";
    StripExtension(f) + GorillaExtension
  }
}
