/** From tenant slugs to PostgreSQL schema names, and which slugs end up in the same schema. */
module SchemaNames {
  import opened Prelude
  import opened Text

  datatype NameError = BadSlug | EmptyName | Reserved | ReservedPrefix | BadSchemaName | NotATenantSchema

  /** `[a-z][a-z0-9-]{1,62}` */
  predicate IsSlug(s: string)
  {
    2 <= |s| <= 63 && IsLower(s[0]) && forall i :: 0 <= i < |s| ==> IsLower(s[i]) || IsDigit(s[i]) || s[i] == '-'
  }

  /** `[a-z][a-z0-9_]{0,62}` */
  predicate IsIdentifier(s: string)
  {
    1 <= |s| <= 63 && IsLower(s[0]) && forall i :: 0 <= i < |s| ==> IsLower(s[i]) || IsDigit(s[i]) || s[i] == '_'
  }

  const RESERVED: set<string> := {"public", "information_schema", "pg_catalog", "pg_toast"}
  const PREFIX: string := "tenant_"
  const ROOM: nat := 56

  function ValidateTenantSlug(value: string): Result<string, NameError>
  {
    var slug := Lower(Strip(value));
    if IsSlug(slug) then Ok(slug) else Err(BadSlug)
  }

  function ValidateSchemaName(value: string): Result<string, NameError>
  {
    if value in RESERVED then Err(Reserved)
    else if "pg_" <= value then Err(ReservedPrefix)
    else if !IsIdentifier(value) then Err(BadSchemaName)
    else Ok(value)
  }

  /** The check before a session's search path is set. */
  function ValidateSearchPath(value: string): Result<string, NameError>
  {
    if !(PREFIX <= value) then Err(NotATenantSchema) else ValidateSchemaName(value)
  }

  function Underscored(s: string): string
  {
    seq(|s|, i requires 0 <= i < |s| => if s[i] == '-' then '_' else s[i])
  }

  /** Every run of underscores becomes one. */
  function Collapse(s: string): string
  {
    if s == "" then ""
    else if |s| > 1 && s[0] == '_' && s[1] == '_' then Collapse(s[1..])
    else [s[0]] + Collapse(s[1..])
  }

  function TrimLeft(s: string): string
  {
    if s != "" && s[0] == '_' then TrimLeft(s[1..]) else s
  }

  function TrimRight(s: string): string
  {
    if s != "" && s[|s| - 1] == '_' then TrimRight(s[..|s| - 1]) else s
  }

  function Normalized(slug: string): string
  {
    TrimLeft(TrimRight(Collapse(Underscored(slug))))
  }

  function Cut(s: string, room: nat): string
  {
    if |s| <= room then s else s[..room]
  }

  function MakeTenantSchemaName(value: string): Result<string, NameError>
  {
    match ValidateTenantSlug(value)
    case Err(e) => Err(e)
    case Ok(slug) =>
      var normalized := Normalized(slug);
      if normalized == "" then Err(EmptyName)
      else ValidateSchemaName(TrimRight(Cut(PREFIX + normalized, 63)))
  }

  // ---- What a slug is made of ----

  function NonEmpty(parts: seq<string>): seq<string>
  {
    if parts == [] then []
    else (if parts[0] == "" then [] else [parts[0]]) + NonEmpty(parts[1..])
  }

  /** The non-empty hyphen-separated segments. */
  function Segments(slug: string): seq<string>
  {
    NonEmpty(Split(slug, '-'))
  }

  /** As many of the segments as fit into `room` characters when joined, the last one cut. */
  function Fit(segments: seq<string>, room: nat): seq<string>
  {
    if segments == [] || room == 0 then []
    else if |segments[0]| >= room then [segments[0][..room]]
    else [segments[0]] + Fit(segments[1..], room - |segments[0]| - 1)
  }

  // ---- Normalising is joining the segments ----

  ghost predicate Plain(segments: seq<string>)
  {
    forall i :: 0 <= i < |segments| ==> segments[i] != "" && Without(segments[i], '_')
  }

  lemma {:induction false} TrimRightAppend(p: string, x: string)
    ensures TrimRight(p + x) == if TrimRight(x) == "" then TrimRight(p) else p + TrimRight(x)
  {
    if x == "" {
      assert p + x == p;
    } else if x[|x| - 1] == '_' {
      TrimRightAppend(p, x[..|x| - 1]);
      assert (p + x)[..|p + x| - 1] == p + x[..|x| - 1];
    }
  }

  lemma {:induction false} SplitUnderscored(s: string)
    requires Without(s, '_')
    ensures Split(Underscored(s), '_') == Split(s, '-')
  {
    if s != "" {
      assert Underscored(s)[1..] == Underscored(s[1..]);
      SplitUnderscored(s[1..]);
    }
  }

  lemma {:induction false} NonEmptyPlain(parts: seq<string>)
    requires forall i :: 0 <= i < |parts| ==> Without(parts[i], '_')
    ensures Plain(NonEmpty(parts))
  {
    if parts != [] {
      NonEmptyPlain(parts[1..]);
    }
  }

  /** The right-trimmed collapsed text: the segments joined, after an underscore if the text starts with one. */
  function Rejoined(u: string): string
  {
    var segments := NonEmpty(Split(u, '_'));
    if segments == [] then ""
    else if u != "" && u[0] == '_' then "_" + Join(segments, '_')
    else Join(segments, '_')
  }

  lemma {:induction false} CollapseRejoins(u: string)
    ensures TrimRight(Collapse(u)) == Rejoined(u)
  {
    if u != "" {
      var rest := u[1..];
      CollapseRejoins(rest);
      if u[0] == '_' {
        UnderscoreJoins(rest);
        assert u == "_" + rest;
      } else {
        TrimRightAppend([u[0]], Collapse(rest));
        HeadJoins(u[0], rest);
        assert u == [u[0]] + rest;
      }
    }
  }

  lemma SplitPastUnderscore(rest: string)
    ensures NonEmpty(Split("_" + rest, '_')) == NonEmpty(Split(rest, '_'))
  {
    var parts := Split(rest, '_');
    assert ("_" + rest)[1..] == rest;
    assert Split("_" + rest, '_') == [""] + parts;
    assert ([""] + parts)[1..] == parts;
  }

  lemma CollapsePastUnderscore(rest: string)
    ensures Collapse("_" + rest) == if rest != "" && rest[0] == '_' then Collapse(rest) else "_" + Collapse(rest)
  {
    assert ("_" + rest)[1..] == rest;
  }

  lemma StartsWithSegment(rest: string)
    requires rest != "" && rest[0] != '_'
    ensures NonEmpty(Split(rest, '_')) != [] && Join(NonEmpty(Split(rest, '_')), '_') != ""
  {
    var parts := Split(rest, '_');
    SplitParts(rest, '_');
    NonEmptyPlain(parts);
    assert parts[0] != "";
    JoinStarts(NonEmpty(parts));
  }

  /** An underscore in front of a text shows only when the text has segments. */
  lemma UnderscoreJoins(rest: string)
    requires TrimRight(Collapse(rest)) == Rejoined(rest)
    ensures TrimRight(Collapse("_" + rest)) == Rejoined("_" + rest)
  {
    SplitPastUnderscore(rest);
    CollapsePastUnderscore(rest);
    if rest == "" {
      assert TrimRight("_") == TrimRight("");
    } else if rest[0] != '_' {
      TrimRightAppend("_", Collapse(rest));
      StartsWithSegment(rest);
    }
  }

  lemma SplitPastLetter(c: char, rest: string)
    requires c != '_'
    ensures Split([c] + rest, '_') == [[c] + Split(rest, '_')[0]] + Split(rest, '_')[1..]
  {
    assert ([c] + rest)[1..] == rest;
  }

  lemma NonEmptyCons(first: string, tail: seq<string>)
    ensures NonEmpty([first] + tail) == (if first == "" then [] else [first]) + NonEmpty(tail)
  {
    assert ([first] + tail)[1..] == tail;
  }

  /** The first part of a text is empty exactly when the text is, or starts with the separator. */
  lemma FirstPart(rest: string)
    ensures Split(rest, '_')[0] == "" <==> rest == "" || rest[0] == '_'
    ensures rest == "" ==> Split(rest, '_')[1..] == []
  {
  }

  /** Putting a letter in front of a text puts it in front of the rejoined text. */
  lemma HeadJoins(c: char, rest: string)
    requires c != '_'
    ensures Rejoined([c] + rest) == [c] + Rejoined(rest)
  {
    var first, others := Split(rest, '_')[0], Split(rest, '_')[1..];
    var tail := NonEmpty(others);
    SplitPastLetter(c, rest);
    NonEmptyCons([c] + first, others);
    NonEmptyCons(first, others);
    FirstPart(rest);
    assert NonEmpty(Split([c] + rest, '_')) == [[c] + first] + tail;
    assert Rejoined([c] + rest) == Join([[c] + first] + tail, '_');
    assert Split(rest, '_') == [first] + others;
    HeadOfJoin(c, first, tail);
    HeadRejoined(rest, first, tail);
  }

  lemma HeadRejoined(rest: string, first: string, tail: seq<string>)
    requires NonEmpty(Split(rest, '_')) == (if first == "" then [] else [first]) + tail
    requires first == "" <==> rest == "" || rest[0] == '_'
    requires rest == "" ==> tail == []
    ensures Rejoined(rest) == Join([first] + tail, '_')
  {
    HeadOfJoin('a', first, tail);
    if first == "" {
      assert [] + tail == tail && [first] + tail == [""] + tail;
    }
  }

  lemma HeadOfJoin(c: char, first: string, tail: seq<string>)
    ensures Join([[c] + first] + tail, '_') == [c] + Join([first] + tail, '_')
    ensures Join([""] + tail, '_') == if tail == [] then "" else "_" + Join(tail, '_')
  {
    assert ([[c] + first] + tail)[1..] == tail && ([first] + tail)[1..] == tail && ([""] + tail)[1..] == tail;
  }

  lemma SlugSegments(slug: string)
    requires IsSlug(slug)
    ensures Plain(Segments(slug)) && |Segments(slug)| >= 1
    ensures Normalized(slug) == Join(Segments(slug), '_')
  {
    assert Without(slug, '_');
    var u := Underscored(slug);
    SplitUnderscored(slug);
    SplitParts(u, '_');
    NonEmptyPlain(Split(u, '_'));
    CollapseRejoins(u);
    assert Split(slug, '-')[0] != "";
    assert Normalized(slug) == TrimLeft(Join(Segments(slug), '_'));
    assert u[0] == slug[0];
    JoinStarts(Segments(slug));
  }

  lemma JoinStarts(segments: seq<string>)
    requires Plain(segments) && |segments| >= 1
    ensures var joined := Join(segments, '_'); joined != "" && joined[0] == segments[0][0] && joined[0] != '_'
  {
  }

  // ---- Cutting is fitting the segments ----

  lemma {:induction false} FitPlain(segments: seq<string>, room: nat)
    requires Plain(segments)
    ensures Plain(Fit(segments, room))
    ensures segments != [] && room > 0 ==> Fit(segments, room) != []
  {
    if segments != [] && 0 < |segments[0]| < room {
      FitPlain(segments[1..], room - |segments[0]| - 1);
    }
  }

  lemma JoinOfHead(head: string, rest: seq<string>)
    requires rest != []
    ensures Join([head] + rest, '_') == head + ("_" + Join(rest, '_'))
  {
    assert ([head] + rest)[1..] == rest;
  }

  lemma CutOfJoin(head: string, rest: seq<string>, left: nat)
    requires rest != []
    ensures Cut(Join([head] + rest, '_'), |head| + 1 + left) == head + ("_" + Cut(Join(rest, '_'), left))
  {
    JoinOfHead(head, rest);
  }

  /** A whole segment before what is cut. */
  lemma CutPastHead(head: string, rest: seq<string>, left: nat)
    requires head != "" && Without(head, '_') && rest != [] && Plain(rest)
    requires TrimRight(Cut(Join(rest, '_'), left)) == Join(Fit(rest, left), '_')
    ensures TrimRight(Cut(Join([head] + rest, '_'), |head| + 1 + left)) == Join([head] + Fit(rest, left), '_')
  {
    var cut := Cut(Join(rest, '_'), left);
    CutOfJoin(head, rest, left);
    TrimRightAppend("_", cut);
    TrimRightAppend(head, "_" + cut);
    assert TrimRight("_") == TrimRight("") == "" && TrimRight(head) == head;
    FitPlain(rest, left);
    if left > 0 {
      JoinStarts(Fit(rest, left));
      JoinOfHead(head, Fit(rest, left));
    }
  }

  lemma {:induction false} CutFits(segments: seq<string>, room: nat)
    requires Plain(segments)
    ensures TrimRight(Cut(Join(segments, '_'), room)) == Join(Fit(segments, room), '_')
  {
    if segments != [] && room > 0 {
      var head, rest := segments[0], segments[1..];
      assert segments == [head] + rest;
      if |head| >= room {
        CutInHead(head, rest, room);
      } else if rest != [] {
        CutFits(rest, room - |head| - 1);
        CutPastHead(head, rest, room - |head| - 1);
      } else {
        assert Join(segments, '_') == head;
      }
    }
  }

  lemma CutInHead(head: string, rest: seq<string>, room: nat)
    requires 0 < room <= |head| && Without(head, '_')
    ensures TrimRight(Cut(Join([head] + rest, '_'), room)) == head[..room]
  {
    if rest != [] {
      JoinOfHead(head, rest);
    }
    assert Cut(Join([head] + rest, '_'), room) == head[..room];
  }

  lemma {:induction false} FitAll(segments: seq<string>, room: nat)
    requires |Join(segments, '_')| <= room && Plain(segments)
    ensures Fit(segments, room) == segments
  {
    if segments != [] {
      if |segments| == 1 {
        assert segments[0][..|segments[0]|] == segments[0] && segments[1..] == [];
      } else {
        JoinStarts(segments[1..]);
        FitAll(segments[1..], room - |segments[0]| - 1);
      }
    }
  }

  // ---- The theorems ----

  lemma NameOfSlug(slug: string)
    requires IsSlug(slug)
    ensures Normalized(slug) != ""
    ensures TrimRight(Cut(PREFIX + Normalized(slug), 63)) == PREFIX + Join(Fit(Segments(slug), ROOM), '_')
  {
    var segments := Segments(slug);
    SlugSegments(slug);
    JoinStarts(segments);
    var joined := Join(segments, '_');
    assert Cut(PREFIX + joined, 63) == PREFIX + Cut(joined, ROOM);
    CutFits(segments, ROOM);
    FitPlain(segments, ROOM);
    JoinStarts(Fit(segments, ROOM));
    TrimRightAppend(PREFIX, Cut(joined, ROOM));
  }

  lemma {:induction false} TrimmedWithin(s: string)
    ensures |TrimRight(s)| <= |s| && TrimRight(s) == s[..|TrimRight(s)|]
  {
    if s != "" && s[|s| - 1] == '_' {
      TrimmedWithin(s[..|s| - 1]);
    }
  }

  lemma {:induction false} CollapsedText(s: string)
    requires forall i :: 0 <= i < |s| ==> IsLower(s[i]) || IsDigit(s[i]) || s[i] == '_'
    ensures forall i :: 0 <= i < |Collapse(s)| ==>
              IsLower(Collapse(s)[i]) || IsDigit(Collapse(s)[i]) || Collapse(s)[i] == '_'
  {
    if s != "" {
      CollapsedText(s[1..]);
    }
  }

  lemma {:induction false} TrimLeftWithin(s: string)
    ensures exists k :: 0 <= k <= |s| && TrimLeft(s) == s[k..]
  {
    if s != "" && s[0] == '_' {
      TrimLeftWithin(s[1..]);
      var k :| 0 <= k <= |s[1..]| && TrimLeft(s) == s[1..][k..];
      assert s[1..][k..] == s[k + 1..];
    } else {
      assert s == s[0..];
    }
  }

  lemma NormalizedText(slug: string)
    requires IsSlug(slug)
    ensures forall i :: 0 <= i < |Normalized(slug)| ==>
              IsLower(Normalized(slug)[i]) || IsDigit(Normalized(slug)[i]) || Normalized(slug)[i] == '_'
  {
    var collapsed := Collapse(Underscored(slug));
    CollapsedText(Underscored(slug));
    TrimmedWithin(collapsed);
    TrimLeftWithin(TrimRight(collapsed));
  }

  lemma NameIsIdentifier(slug: string)
    requires IsSlug(slug)
    ensures IsIdentifier(TrimRight(Cut(PREFIX + Normalized(slug), 63)))
  {
    NormalizedText(slug);
    var whole := Cut(PREFIX + Normalized(slug), 63);
    var name := TrimRight(whole);
    TrimmedWithin(whole);
    NameOfSlug(slug);
    assert name[0] == PREFIX[0] == 't';
  }

  /**
   Naming succeeds exactly on the texts that clean up to a valid slug, and then the name is a valid,
   unreserved identifier that a session's search path accepts.
   */
  lemma NamingIsTotal(value: string)
    ensures MakeTenantSchemaName(value).Ok? <==> IsSlug(Lower(Strip(value)))
    ensures MakeTenantSchemaName(value).Ok? ==>
              var name := MakeTenantSchemaName(value).value;
              && ValidateSearchPath(name) == Ok(name)
              && PREFIX < name && |name| <= 63 && name[|name| - 1] != '_'
  {
    var slug := Lower(Strip(value));
    if IsSlug(slug) {
      NameOfSlug(slug);
      NameIsIdentifier(slug);
      LastKept(Cut(PREFIX + Normalized(slug), 63));
      SlugSegments(slug);
      FitPlain(Segments(slug), ROOM);
      JoinStarts(Fit(Segments(slug), ROOM));
      Unreserved(Join(Fit(Segments(slug), ROOM), '_'));
    }
  }

  lemma Unreserved(rest: string)
    ensures PREFIX + rest !in RESERVED && !("pg_" <= PREFIX + rest)
  {
    var name := PREFIX + rest;
    assert name[0] == 't';
  }

  lemma {:induction false} LastKept(s: string)
    ensures TrimRight(s) != "" ==> TrimRight(s)[|TrimRight(s)| - 1] != '_'
  {
    if s != "" && s[|s| - 1] == '_' {
      LastKept(s[..|s| - 1]);
    }
  }

  /** Two slugs share a schema exactly when the segments that fit are the same. */
  lemma SharedSchemaIff(a: string, b: string)
    requires IsSlug(a) && IsSlug(b)
    ensures MakeTenantSchemaName(a) == MakeTenantSchemaName(b) <==> Fit(Segments(a), ROOM) == Fit(Segments(b), ROOM)
  {
    NameFor(a);
    NameFor(b);
    var x, y := Fit(Segments(a), ROOM), Fit(Segments(b), ROOM);
    if PREFIX + Join(x, '_') == PREFIX + Join(y, '_') {
      assert Join(x, '_') == (PREFIX + Join(x, '_'))[|PREFIX|..] == Join(y, '_');
      SplitAfterJoin(x, '_');
      SplitAfterJoin(y, '_');
    }
  }

  lemma NameFor(slug: string)
    requires IsSlug(slug)
    ensures MakeTenantSchemaName(slug) == Ok(PREFIX + Join(Fit(Segments(slug), ROOM), '_'))
    ensures Fit(Segments(slug), ROOM) != [] && Plain(Fit(Segments(slug), ROOM))
  {
    CanonicalUnchanged(slug);
    NamingIsTotal(slug);
    NameOfSlug(slug);
    SlugSegments(slug);
    FitPlain(Segments(slug), ROOM);
  }

  lemma {:induction false} CollapseShortens(s: string)
    ensures |Collapse(s)| <= |s|
  {
    if s != "" {
      CollapseShortens(s[1..]);
    }
  }

  /** Up to 56 characters nothing is cut: slugs share a schema exactly when their segments are the same. */
  lemma ShortSlugsShareIff(a: string, b: string)
    requires IsSlug(a) && IsSlug(b) && |a| <= ROOM && |b| <= ROOM
    ensures MakeTenantSchemaName(a) == MakeTenantSchemaName(b) <==> Segments(a) == Segments(b)
  {
    SharedSchemaIff(a, b);
    NothingCut(a);
    NothingCut(b);
  }

  lemma NothingCut(slug: string)
    requires IsSlug(slug) && |slug| <= ROOM
    ensures Fit(Segments(slug), ROOM) == Segments(slug)
  {
    SlugSegments(slug);
    var collapsed := Collapse(Underscored(slug));
    CollapseShortens(Underscored(slug));
    TrimmedWithin(collapsed);
    TrimLeftWithin(TrimRight(collapsed));
    FitAll(Segments(slug), ROOM);
  }

  /** A slug written without doubled or trailing hyphens. */
  predicate Tidy(slug: string)
  {
    Join(Segments(slug), '-') == slug
  }

  /** Tidy slugs of up to 56 characters each have a schema of their own. */
  lemma TidySlugsApart(a: string, b: string)
    requires IsSlug(a) && IsSlug(b) && |a| <= ROOM && |b| <= ROOM && Tidy(a) && Tidy(b)
    ensures MakeTenantSchemaName(a) == MakeTenantSchemaName(b) <==> a == b
  {
    ShortSlugsShareIff(a, b);
  }

  /** Every tenant slug shares its schema with its tidy form. */
  lemma TidyFormShares(slug: string)
    requires IsSlug(slug) && IsSlug(Join(Segments(slug), '-'))
    ensures MakeTenantSchemaName(slug) == MakeTenantSchemaName(Join(Segments(slug), '-'))
  {
    var tidy := Join(Segments(slug), '-');
    SlugSegments(slug);
    SplitParts(slug, '-');
    NonEmptyWithout(Split(slug, '-'));
    SplitAfterJoin(Segments(slug), '-');
    NonEmptyFixed(Segments(slug));
    SharedSchemaIff(slug, tidy);
  }

  lemma {:induction false} NonEmptyWithout(parts: seq<string>)
    requires forall i :: 0 <= i < |parts| ==> Without(parts[i], '-')
    ensures forall i :: 0 <= i < |NonEmpty(parts)| ==> Without(NonEmpty(parts)[i], '-')
  {
    if parts != [] {
      NonEmptyWithout(parts[1..]);
    }
  }

  lemma {:induction false} NonEmptyFixed(parts: seq<string>)
    requires forall i :: 0 <= i < |parts| ==> parts[i] != ""
    ensures NonEmpty(parts) == parts
  {
    if parts != [] {
      NonEmptyFixed(parts[1..]);
    }
  }

  /** Reserved names and the `pg_` prefix are refused; a search path accepts exactly the tenant identifiers. */
  lemma SearchPathAcceptsIff(name: string)
    ensures ValidateSearchPath(name).Ok? <==> "tenant_" <= name && IsIdentifier(name)
    ensures ValidateSchemaName(name).Ok? <==>
              && IsIdentifier(name) && !("pg_" <= name) && name != "public" && name != "information_schema"
    ensures ValidateSchemaName(name).Ok? ==> ValidateSchemaName(name) == Ok(name)
  {
    if "tenant_" <= name {
      assert name[0] == 't' && "pg_catalog"[0] == 'p' && "pg_toast"[0] == 'p';
    }
    assert "pg_" <= "pg_catalog" && "pg_" <= "pg_toast";
  }
}
