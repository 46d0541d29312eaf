/** Permission keys, their validator and the wildcard matcher. */
module PermissionKeys {
  import opened Prelude
  import opened Text

  // ---- Validation ----

  const MAX_SEGMENT: nat := 63

  /** `[a-z][a-z0-9_]{0,62}`, with `-` allowed after the first letter when `hyphens` is set. */
  predicate IsName(s: string, hyphens: bool)
  {
    && 1 <= |s| <= MAX_SEGMENT
    && IsLower(s[0])
    && forall i :: 1 <= i < |s| ==> IsLower(s[i]) || IsDigit(s[i]) || s[i] == '_' || (hyphens && s[i] == '-')
  }

  datatype KeyError =
    | Empty | WrongSegmentCount | BadNamespace | MiddleWildcard
    | MissingWildcard | BadResource | BadAction

  function ValidatePermissionKey(value: string): Result<string, KeyError>
  {
    if value == "" then Err(Empty)
    else
      var segments := Split(value, '.');
      if |segments| != 2 && |segments| != 3 then Err(WrongSegmentCount)
      else if !IsName(segments[0], false) then Err(BadNamespace)
      else if |segments| == 2 then
        if segments[1] != "*" then Err(MissingWildcard) else Ok(value)
      else if segments[1] == "*" then Err(MiddleWildcard)
      else if !IsName(segments[1], true) then Err(BadResource)
      else if segments[2] != "*" && !IsName(segments[2], true) then Err(BadAction)
      else Ok(value)
  }

  predicate Valid(value: string)
  {
    ValidatePermissionKey(value).Ok?
  }

  /** What a valid key means: a whole namespace, a whole resource, or one action. */
  datatype Key =
    | Namespace(namespace: string)
    | Resource(namespace: string, resource: string)
    | Concrete(namespace: string, resource: string, action: string)
  {
    predicate WellFormed()
    {
      && IsName(namespace, false)
      && (Namespace? || IsName(resource, true))
      && (Concrete? ==> IsName(action, true))
    }

    function Segments(): seq<string>
    {
      match this
      case Namespace(ns) => [ns, "*"]
      case Resource(ns, res) => [ns, res, "*"]
      case Concrete(ns, res, act) => [ns, res, act]
    }

    function Render(): string
    {
      Join(Segments(), '.')
    }
  }

  function Parse(value: string): Key
    requires Valid(value)
  {
    var s := Split(value, '.');
    if |s| == 2 then Namespace(s[0])
    else if s[2] == "*" then Resource(s[0], s[1])
    else Concrete(s[0], s[1], s[2])
  }

  lemma SegmentsOfRender(k: Key)
    requires k.WellFormed()
    ensures Split(k.Render(), '.') == k.Segments()
  {
    SplitAfterJoin(k.Segments(), '.');
  }

  /** The validator accepts exactly the rendered keys. */
  lemma ParseRenders(value: string)
    requires Valid(value)
    ensures Parse(value).WellFormed() && Parse(value).Render() == value
  {
    JoinAfterSplit(value, '.');
    assert Parse(value).Segments() == Split(value, '.');
  }

  lemma RenderParses(k: Key)
    requires k.WellFormed()
    ensures Valid(k.Render()) && Parse(k.Render()) == k
  {
    SegmentsOfRender(k);
    assert k.Render()[0] == k.namespace[0];
  }

  // ---- The matcher ----

  /** The closed form of the matcher: an exact match, or a prefix followed by a final wildcard. */
  predicate SegmentsMatch(granted: seq<string>, required: seq<string>)
    requires |granted| >= 1
  {
    var last := |granted| - 1;
    if "*" in granted then
      && "*" !in granted[..last] && granted[last] == "*"
      && |granted| <= |required| && granted[..last] == required[..last]
    else granted == required
  }

  function Canonical(key: string): seq<string>
  {
    Split(Lower(Strip(key)), '.')
  }

  predicate Matches(granted: string, required: string)
  {
    SegmentsMatch(Canonical(granted), Canonical(required))
  }

  /** Blanks around a key and capitals in it make no difference, on either side. */
  lemma MatchingIgnoresDress(blanks: string, key: string, more: string, other: string)
    requires forall c :: c in blanks || c in more ==> IsSpace(c)
    requires key != "" && !IsSpace(key[0]) && !IsSpace(key[|key| - 1])
    ensures Matches(blanks + key + more, other) == Matches(Lower(key), other)
    ensures Matches(other, blanks + key + more) == Matches(other, Lower(key))
  {
    StripBlanks(blanks, key, more);
    StripBlanks("", Lower(key), "");
    assert "" + Lower(key) + "" == Lower(key);
    assert Lower(Lower(key)) == Lower(key);
  }

  /** The loop with its early returns computes the closed form, on any two strings. */
  method MatchesPermission(granted: string, required: string) returns (matched: bool)
    ensures matched == Matches(granted, required)
  {
    var g, r := Canonical(granted), Canonical(required);
    for i := 0 to |g|
      invariant i <= |r| && g[..i] == r[..i] && "*" !in g[..i]
    {
      if g[i] == "*" {
        if i == |g| - 1 {
          return i <= |r| - 1;
        }
        assert "*" in g[..|g| - 1] by { assert g[..|g| - 1][i] == "*"; }
        return false;
      }
      if i >= |r| || g[i] != r[i] {
        Mismatch(g, r, i);
        return false;
      }
      assert g[..i + 1] == g[..i] + [g[i]] && r[..i + 1] == r[..i] + [r[i]];
    }
    assert g[..|g|] == g;
    return |g| == |r|;
  }

  lemma Mismatch(g: seq<string>, r: seq<string>, i: nat)
    requires i < |g| && g[i] != "*" && (i >= |r| || g[i] != r[i])
    ensures !SegmentsMatch(g, r)
  {
    if i < |g| - 1 && |g| <= |r| {
      assert g[..|g| - 1][i] == g[i] && r[..|g| - 1][i] == r[i];
    }
  }

  // ---- The algebra of valid keys ----

  /** Every action the second key names is one the first names. */
  predicate Covers(k: Key, k': Key)
  {
    match k
    case Namespace(ns) => k'.namespace == ns
    case Resource(ns, res) => !k'.Namespace? && k'.namespace == ns && k'.resource == res
    case Concrete(_, _, _) => k' == k
  }

  lemma CanonicalOfRender(k: Key)
    requires k.WellFormed()
    ensures Canonical(k.Render()) == k.Segments()
  {
    SegmentsOfRender(k);
    var s := k.Render();
    forall i | 0 <= i < |s| ensures !IsSpace(s[i]) && LowerChar(s[i]) == s[i] {
      PlainText(k.Segments(), i);
    }
    CanonicalUnchanged(s);
  }

  lemma {:induction false} PlainText(segments: seq<string>, i: nat)
    requires forall j :: 0 <= j < |segments| ==> segments[j] == "*" || IsName(segments[j], true)
    requires i < |Join(segments, '.')|
    ensures !IsSpace(Join(segments, '.')[i]) && LowerChar(Join(segments, '.')[i]) == Join(segments, '.')[i]
  {
    if |segments| > 1 && i > |segments[0]| {
      PlainText(segments[1..], i - |segments[0]| - 1);
    }
  }

  lemma MatchesIsCovers(k: Key, k': Key)
    requires k.WellFormed() && k'.WellFormed()
    ensures Matches(k.Render(), k'.Render()) <==> Covers(k, k')
  {
    CanonicalOfRender(k);
    CanonicalOfRender(k');
    var g, r := k.Segments(), k'.Segments();
    if !k.Concrete? {
      assert g[|g| - 1] == "*";
    }
    if k.Resource? && |g| <= |r| && g[..2] == r[..2] {
      assert r[0] == g[..2][0] && r[1] == g[..2][1];
    }
    if k.Namespace? && |g| <= |r| && g[..1] == r[..1] {
      assert r[0] == g[..1][0];
    }
  }

  lemma MatchesByParse(g: string, r: string)
    requires Valid(g) && Valid(r)
    ensures Matches(g, r) <==> Covers(Parse(g), Parse(r))
    ensures Parse(g) == Parse(r) ==> g == r
  {
    ParseRenders(g);
    ParseRenders(r);
    MatchesIsCovers(Parse(g), Parse(r));
  }

  /** On valid keys the matcher is a partial order. */
  lemma MatchingIsPartialOrder(a: string, b: string, c: string)
    requires Valid(a) && Valid(b) && Valid(c)
    ensures Matches(a, a)
    ensures Matches(a, b) && Matches(b, c) ==> Matches(a, c)
    ensures Matches(a, b) && Matches(b, a) ==> a == b
  {
    MatchesByParse(a, a);
    MatchesByParse(a, b);
    MatchesByParse(b, a);
    MatchesByParse(b, c);
    MatchesByParse(a, c);
  }

  /** A valid key without a wildcard. */
  predicate IsConcrete(key: string)
  {
    Valid(key) && Parse(key).Concrete?
  }

  /** A name other than the given one. */
  function OtherName(s: string): (r: string)
    ensures IsName(r, true) && r != s
  {
    if s == "a" then "b" else "a"
  }

  /** The matcher decides containment: one key matches another iff it grants everything the other grants. */
  lemma MatchingDecidesContainment(wide: string, narrow: string)
    requires Valid(wide) && Valid(narrow)
    ensures Matches(wide, narrow) <==> forall c :: IsConcrete(c) && Matches(narrow, c) ==> Matches(wide, c)
  {
    ParseRenders(wide);
    ParseRenders(narrow);
    MatchesByParse(wide, narrow);
    if Matches(wide, narrow) {
      forall c | IsConcrete(c) && Matches(narrow, c) ensures Matches(wide, c) {
        MatchingIsPartialOrder(wide, narrow, c);
      }
    } else {
      var k := Separator(Parse(wide), Parse(narrow));
      RenderParses(k);
      MatchesByParse(wide, k.Render());
      MatchesByParse(narrow, k.Render());
      assert IsConcrete(k.Render());
    }
  }

  /** An action the narrow key grants and the wide one does not. */
  function Separator(wide: Key, narrow: Key): (k: Key)
    requires wide.WellFormed() && narrow.WellFormed() && !Covers(wide, narrow)
    ensures k.WellFormed() && k.Concrete? && Covers(narrow, k) && !Covers(wide, k)
  {
    match narrow
    case Concrete(_, _, _) => narrow
    case Resource(ns, res) => Concrete(ns, res, OtherName(if wide.Concrete? then wide.action else ""))
    case Namespace(ns) => Concrete(ns, OtherName(if wide.Namespace? then "" else wide.resource), "a")
  }

  // ---- Grant sets ----

  /** `has_permission`: an invalid required key is an error, a blank grant is skipped. */
  ghost function HasPermission(grants: set<string>, required: string): Result<bool, KeyError>
  {
    match ValidatePermissionKey(required)
    case Err(e) => Err(e)
    case Ok(_) => Ok(Grants(grants, required))
  }

  ghost predicate Grants(grants: set<string>, required: string)
  {
    exists g :: g in grants && Strip(g) != "" && Matches(g, required)
  }

  method CheckPermission(granted: seq<string>, required: string) returns (answer: Result<bool, KeyError>)
    ensures answer == HasPermission((set g | g in granted), required)
    ensures answer.Err? <==> !Valid(required)
    ensures answer == Ok(true) <==>
              Valid(required) && exists g :: g in granted && Strip(g) != "" && Matches(g, required)
  {
    var valid := ValidatePermissionKey(required);
    if valid.Err? {
      return Err(valid.error);
    }
    for i := 0 to |granted|
      invariant forall g :: g in granted[..i] && Strip(g) != "" ==> !Matches(g, required)
    {
      if granted[i] != "" && Strip(granted[i]) != "" {
        var matched := MatchesPermission(granted[i], required);
        if matched {
          assert granted[i] in (set g | g in granted);
          return Ok(true);
        }
      }
      assert granted[..i + 1] == granted[..i] + [granted[i]];
    }
    assert granted[..|granted|] == granted;
    return Ok(false);
  }

  /** More grants never take a permission away, and a union grants what either part does. */
  lemma PermissionsDistribute(a: set<string>, b: set<string>, required: string)
    requires Valid(required)
    ensures HasPermission(a + b, required).value <==>
              HasPermission(a, required).value || HasPermission(b, required).value
    ensures a <= b && HasPermission(a, required).value ==> HasPermission(b, required).value
  {
    if Grants(a, required) {
      var g :| g in a && Strip(g) != "" && Matches(g, required);
      assert g in a + b;
    }
    if Grants(b, required) {
      var g :| g in b && Strip(g) != "" && Matches(g, required);
      assert g in a + b;
    }
  }

  /** Replacing a grant by a wider one loses nothing: any set of keys may be coarsened. */
  lemma WiderGrantSuffices(grants: set<string>, narrow: string, wide: string, required: string)
    requires Valid(narrow) && Valid(wide) && Valid(required) && Matches(wide, narrow)
    ensures Grants(grants + {narrow}, required) ==> Grants(grants + {wide}, required)
  {
    if Grants(grants + {narrow}, required) {
      var g :| g in grants + {narrow} && Strip(g) != "" && Matches(g, required);
      if g == narrow {
        MatchingIsPartialOrder(wide, narrow, required);
        ParseRenders(wide);
        NotBlank(wide);
        assert wide in grants + {wide};
      } else {
        assert g in grants + {wide};
      }
    }
  }

  lemma NotBlank(key: string)
    requires Valid(key)
    ensures Strip(key) != ""
  {
    ParseRenders(key);
    var k := Parse(key);
    forall i | 0 <= i < |key| ensures !IsSpace(key[i]) { PlainText(k.Segments(), i); }
    CanonicalUnchangedStrip(key);
  }

  lemma CanonicalUnchangedStrip(s: string)
    requires forall i :: 0 <= i < |s| ==> !IsSpace(s[i])
    ensures Strip(s) == s
  {
  }
}
