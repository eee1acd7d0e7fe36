/** Deriving a module's name from a fully qualified PHP class name. */
module ModuleAware {

  const Prefix: string := "Modules\\"
  const Unknown: string := "Unknown"

  /** `className` starts with `Modules\`, then the non-empty, backslash-free
      segment `m`, then a backslash: the shape the anchored pattern
      `^Modules\\([^\\]+)\\` accepts, with `m` as its capture. */
  predicate NamesModule(className: string, m: string) {
    && |m| > 0
    && (forall i :: 0 <= i < |m| ==> m[i] != '\\')
    && |Prefix| + |m| < |className|
    && className[..|Prefix|] == Prefix
    && className[|Prefix|..|Prefix| + |m|] == m
    && className[|Prefix| + |m|] == '\\'
  }

  /** The longest backslash-free prefix of `s`. */
  function Segment(s: string): (r: string)
    ensures |r| <= |s| && r == s[..|r|]
    ensures forall i :: 0 <= i < |r| ==> r[i] != '\\'
    ensures |r| < |s| ==> s[|r|] == '\\'
  {
    if |s| == 0 || s[0] == '\\' then [] else [s[0]] + Segment(s[1..])
  }

  /** `extractModuleName`: the capture of the pattern, or `Unknown` when the
      class name does not have that shape. Total on every string. */
  function ExtractModuleName(className: string): (r: string)
    ensures forall m :: NamesModule(className, m) ==> r == m
    ensures r == Unknown || NamesModule(className, r)
  {
    if |className| >= |Prefix| && className[..|Prefix|] == Prefix then
      var rest := className[|Prefix|..];
      var seg := Segment(rest);
      if 0 < |seg| < |rest| then
        assert className[|Prefix|..|Prefix| + |seg|] == rest[..|seg|];
        seg
      else
        NoShapeWithoutSegment(className);
        Unknown
    else
      Unknown
  }

  /** When the first segment after the prefix is empty or unterminated, no
      capture exists. */
  lemma NoShapeWithoutSegment(className: string)
    requires |className| >= |Prefix| && className[..|Prefix|] == Prefix
    requires var seg := Segment(className[|Prefix|..]);
             !(0 < |seg| < |className| - |Prefix|)
    ensures forall m :: !NamesModule(className, m)
  {
  }

  /** The capture is determined by the class name. */
  lemma NamesModuleUnique(className: string, m: string, n: string)
    requires NamesModule(className, m) && NamesModule(className, n)
    ensures m == n
  {
  }

  /** A result other than `Unknown` is a non-empty segment with no backslash,
      taken from right after `Modules\`. */
  lemma ExtractedIsSegment(className: string)
    requires ExtractModuleName(className) != Unknown
    ensures var r := ExtractModuleName(className);
            && |r| > 0
            && (forall i :: 0 <= i < |r| ==> r[i] != '\\')
            && className[..|Prefix| + |r| + 1] == Prefix + r + "\\"
  {
    var r := ExtractModuleName(className);
    assert className[..|Prefix| + |r| + 1]
        == className[..|Prefix|] + className[|Prefix|..|Prefix| + |r|] + [className[|Prefix| + |r|]];
  }

  /** The documented example. */
  lemma ExampleCreateUser()
    ensures ExtractModuleName("Modules\\User\\Application\\UseCases\\CreateUser") == "User"
  {
    var tail := "\\Application\\UseCases\\CreateUser";
    var c := Prefix + "User" + tail;
    assert NamesModule(c, "User") by {
      assert c[..|Prefix|] == Prefix;
      assert c[|Prefix|..|Prefix| + 4] == "User";
      assert c[|Prefix| + 4] == tail[0];
    }
    var lit := "Modules\\User\\Application\\UseCases\\CreateUser";
    assert |c| == |lit|;
    assert forall i :: 0 <= i < |c| ==> c[i] == lit[i];
    assert c == lit;
  }

  /** A segment with no backslash after it is not captured. */
  lemma ExampleUnterminatedSegment()
    ensures ExtractModuleName("Modules\\User") == Unknown
  {
  }

  /** An empty segment is not captured. */
  lemma ExampleEmptySegment()
    ensures ExtractModuleName("Modules\\\\X") == Unknown
  {
  }

  /** The pattern is anchored at the start of the name. */
  lemma ExampleNotAnchored()
    ensures ExtractModuleName("App\\Modules\\User\\X") == Unknown
  {
    assert "App\\Modules\\User\\X"[..|Prefix|][0] != Prefix[0];
  }

  /** The pattern is case-sensitive. */
  lemma ExampleCaseSensitive()
    ensures ExtractModuleName("modules\\User\\X") == Unknown
  {
    assert "modules\\User\\X"[0] != Prefix[0];
  }
}
