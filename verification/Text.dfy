/** The string operations the validators and matchers use, on ASCII text. */
module Text {

  /** `s.split(sep)`: always at least one part. */
  function Split(s: string, sep: char): (parts: seq<string>)
    ensures |parts| >= 1
  {
    if s == "" then [""]
    else
      var rest := Split(s[1..], sep);
      if s[0] == sep then [""] + rest else [[s[0]] + rest[0]] + rest[1..]
  }

  /** `sep.join(parts)`. */
  function Join(parts: seq<string>, sep: char): string
  {
    if parts == [] then ""
    else if |parts| == 1 then parts[0]
    else parts[0] + [sep] + Join(parts[1..], sep)
  }

  lemma JoinOfThree(a: string, b: string, c: string)
    ensures Join([a, b, c], '.') == a + "." + b + "." + c
  {
    assert [a, b, c][1..] == [b, c] && [b, c][1..] == [c];
    assert Join([b, c], '.') == b + "." + c;
    assert a + "." + (b + "." + c) == a + "." + b + "." + c;
  }

  ghost predicate Without(s: string, sep: char)
  {
    forall i :: 0 <= i < |s| ==> s[i] != sep
  }

  lemma {:induction false} JoinAfterSplit(s: string, sep: char)
    ensures Join(Split(s, sep), sep) == s
  {
    if s != "" {
      var rest := Split(s[1..], sep);
      JoinAfterSplit(s[1..], sep);
      if s[0] == sep {
        assert ([""] + rest)[1..] == rest;
      } else {
        assert ([[s[0]] + rest[0]] + rest[1..])[1..] == rest[1..];
        if |rest| > 1 {
          assert Join(Split(s, sep), sep) == ([s[0]] + rest[0]) + [sep] + Join(rest[1..], sep);
        }
      }
      assert [s[0]] + s[1..] == s;
    }
  }

  lemma {:induction false} SplitOne(s: string, sep: char)
    requires Without(s, sep)
    ensures Split(s, sep) == [s]
  {
    if s != "" {
      SplitOne(s[1..], sep);
      assert [s[0]] + s[1..] == s;
    }
  }

  lemma {:induction false} SplitFirst(head: string, tail: string, sep: char)
    requires Without(head, sep)
    ensures Split(head + [sep] + tail, sep) == [head] + Split(tail, sep)
  {
    var s := head + [sep] + tail;
    if head == "" {
      assert s[1..] == tail;
    } else {
      SplitFirst(head[1..], tail, sep);
      assert s[1..] == head[1..] + [sep] + tail;
      assert [s[0]] + head[1..] == head;
    }
  }

  lemma {:induction false} SplitAfterJoin(parts: seq<string>, sep: char)
    requires |parts| >= 1 && forall i :: 0 <= i < |parts| ==> Without(parts[i], sep)
    ensures Split(Join(parts, sep), sep) == parts
  {
    if |parts| == 1 {
      SplitOne(parts[0], sep);
    } else {
      SplitAfterJoin(parts[1..], sep);
      SplitFirst(parts[0], Join(parts[1..], sep), sep);
    }
  }

  /** No part of a split contains the separator. */
  lemma {:induction false} SplitParts(s: string, sep: char)
    ensures forall i :: 0 <= i < |Split(s, sep)| ==> Without(Split(s, sep)[i], sep)
  {
    if s != "" {
      SplitParts(s[1..], sep);
    }
  }

  predicate IsLower(c: char)
  {
    'a' <= c <= 'z'
  }

  predicate IsDigit(c: char)
  {
    '0' <= c <= '9'
  }

  /** The blanks of ASCII: the space, tab to carriage return, and the four separators. */
  predicate IsSpace(c: char)
  {
    c == ' ' || '\t' <= c <= '\r' || '\U{1C}' <= c <= '\U{1F}'
  }

  function LowerChar(c: char): char
  {
    if 'A' <= c <= 'Z' then (c as int + 32) as char else c
  }

  function Lower(s: string): string
  {
    seq(|s|, i requires 0 <= i < |s| => LowerChar(s[i]))
  }

  /** Lower-casing replaces each capital by its small letter and leaves all else in place. */
  lemma LowerLetters(s: string, i: nat, k: nat)
    requires i < |s| && k < 26
    ensures |Lower(s)| == |s|
    ensures s[i] == "ABCDEFGHIJKLMNOPQRSTUVWXYZ"[k] ==> Lower(s)[i] == "abcdefghijklmnopqrstuvwxyz"[k]
    ensures s[i] !in "ABCDEFGHIJKLMNOPQRSTUVWXYZ" ==> Lower(s)[i] == s[i]
  {
    var capitals, letters := "ABCDEFGHIJKLMNOPQRSTUVWXYZ", "abcdefghijklmnopqrstuvwxyz";
    assert forall j :: 0 <= j < 26 ==> capitals[j] as int == 65 + j && letters[j] as int == 97 + j;
    if 'A' <= s[i] <= 'Z' { assert capitals[s[i] as int - 65] == s[i]; }
  }

  function StripLeft(s: string): string
  {
    if s != "" && IsSpace(s[0]) then StripLeft(s[1..]) else s
  }

  function StripRight(s: string): string
  {
    if s != "" && IsSpace(s[|s| - 1]) then StripRight(s[..|s| - 1]) else s
  }

  function Strip(s: string): string
  {
    StripRight(StripLeft(s))
  }

  /** Stripping takes off the blanks around a text. */
  lemma {:induction false} StripBlanks(blanks: string, value: string, more: string)
    requires forall c :: c in blanks || c in more ==> IsSpace(c)
    requires value != "" && !IsSpace(value[0]) && !IsSpace(value[|value| - 1])
    ensures Strip(blanks + value + more) == value
  {
    StripLeftBlanks(blanks, value + more);
    StripRightBlanks(value, more);
    assert blanks + value + more == blanks + (value + more);
  }

  lemma {:induction false} StripLeftBlanks(blanks: string, rest: string)
    requires (forall c :: c in blanks ==> IsSpace(c)) && (rest != "" ==> !IsSpace(rest[0]))
    ensures StripLeft(blanks + rest) == rest
  {
    if blanks == "" {
      assert blanks + rest == rest;
    } else {
      assert (blanks + rest)[1..] == blanks[1..] + rest;
      StripLeftBlanks(blanks[1..], rest);
    }
  }

  lemma {:induction false} StripRightBlanks(value: string, more: string)
    requires (forall c :: c in more ==> IsSpace(c)) && (value != "" ==> !IsSpace(value[|value| - 1]))
    ensures StripRight(value + more) == value
  {
    if more == "" {
      assert value + more == value;
    } else {
      var n := |more| - 1;
      assert (value + more)[..|value + more| - 1] == value + more[..n];
      StripRightBlanks(value, more[..n]);
    }
  }

  lemma StripAllBlank(blanks: string)
    requires forall c :: c in blanks ==> IsSpace(c)
    ensures Strip(blanks) == ""
  {
    StripLeftBlanks(blanks, "");
    assert blanks + "" == blanks;
  }

  /** Text without capitals or blanks is its own canonical form. */
  lemma CanonicalUnchanged(s: string)
    requires forall i :: 0 <= i < |s| ==> !IsSpace(s[i]) && LowerChar(s[i]) == s[i]
    ensures Lower(Strip(s)) == s
  {
  }
}
