/** The two string operations of the .NET library the program uses: `String.Split(char)` and `String.ToLower()`. */
module Strings {

  /** The fields of `s` separated by `sep`, as `String.Split(sep)` returns them: consecutive
      separators give empty fields and the empty string gives one empty field. */
  function Split(s: string, sep: char): (fields: seq<string>)
    ensures |fields| >= 1
    ensures forall i :: 0 <= i < |fields| ==> sep !in fields[i]
    ensures Join(fields, sep) == s
    decreases |s|
  {
    if s == [] then [[]]
    else
      var rest := Split(s[1..], sep);
      if s[0] == sep then [[]] + rest
      else [[s[0]] + rest[0]] + rest[1..]
  }

  /** The fields glued back together with `sep` between neighbours (`String.Join`). */
  function Join(fields: seq<string>, sep: char): string
    decreases |fields|
  {
    if fields == [] then []
    else if |fields| == 1 then fields[0]
    else fields[0] + [sep] + Join(fields[1..], sep)
  }

  /** A string without the separator is one field. */
  lemma {:induction false} SplitNoSeparator(s: string, sep: char)
    requires sep !in s
    ensures Split(s, sep) == [s]
    decreases |s|
  {
    if s != [] {
      SplitNoSeparator(s[1..], sep);
    }
  }

  /** A field followed by the separator is split off in front of the fields of the rest. */
  lemma {:induction false} SplitField(field: string, sep: char, rest: string)
    requires sep !in field
    ensures Split(field + [sep] + rest, sep) == [field] + Split(rest, sep)
    decreases |field|
  {
    var s := field + [sep] + rest;
    if field != [] {
      assert s[1..] == field[1..] + [sep] + rest;
      SplitField(field[1..], sep, rest);
      var tail := Split(s[1..], sep);
      assert tail == [field[1..]] + Split(rest, sep);
      assert [s[0]] + tail[0] == field;
      assert Split(s, sep) == [[s[0]] + tail[0]] + tail[1..];
    } else {
      assert s[1..] == rest;
    }
  }

  /** Split undoes Join: fields free of the separator come back unchanged. With the
      `Join(Split(s)) == s` clause of Split, the two are inverse to each other. */
  lemma {:induction false} SplitJoin(fields: seq<string>, sep: char)
    requires |fields| >= 1
    requires forall i :: 0 <= i < |fields| ==> sep !in fields[i]
    ensures Split(Join(fields, sep), sep) == fields
    decreases |fields|
  {
    if |fields| == 1 {
      SplitNoSeparator(fields[0], sep);
    } else {
      SplitJoin(fields[1..], sep);
      SplitField(fields[0], sep, Join(fields[1..], sep));
      assert [fields[0]] + fields[1..] == fields;
    }
  }

  /** A string has a second field exactly when it contains the separator. */
  lemma SplitHasSecondField(s: string, sep: char)
    ensures |Split(s, sep)| >= 2 <==> sep in s
  {
    var fields := Split(s, sep);
    if |fields| == 1 {
      assert s == fields[0];
    } else {
      assert s == fields[0] + [sep] + Join(fields[1..], sep);
      assert s[|fields[0]|] == sep;
    }
  }

  /** `Char.ToLower` on the ASCII letters; every other character is left as it is. */
  function ToLowerChar(c: char): char
  {
    if 'A' <= c <= 'Z' then (c as int - 'A' as int + 'a' as int) as char else c
  }

  /** `String.ToLower()`, character by character. */
  function ToLower(s: string): string
  {
    seq(|s|, i requires 0 <= i < |s| => ToLowerChar(s[i]))
  }
}
