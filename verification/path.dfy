/** Path string utilities: quoting a path for a shell command line, taking
    the executable out of a command, and turning a native path into a
    `file://` URL. The behaviour is the one `packages/utils/path.test.ts`
    pins down; its tabulated cases are lemmas of module `PathCases`. */
module PathUtils {

  // ---------------------------------------------------------------------
  // Quoting

  /** A path is quoted when it holds a space or a double quote. */
  predicate NeedsQuoting(path: string) {
    ' ' in path || '"' in path
  }

  /** Puts a backslash before every double quote; backslashes already in
      the text are left alone. */
  function EscapeQuotes(s: string): (r: string)
    ensures '"' !in s ==> r == s
    ensures s == ['"'] ==> r == ['\\', '"']
  {
    if s == [] then []
    else if s[0] == '"' then ['\\', '"'] + EscapeQuotes(s[1..])
    else [s[0]] + EscapeQuotes(s[1..])
  }

  /** Replaces each backslash-quote pair by a quote, scanning from the left
      and never reusing a character of a replaced pair. */
  function UnescapeQuotes(s: string): (r: string)
    ensures |r| <= |s|
    ensures '"' !in s ==> r == s
  {
    if s == [] then []
    else if |s| >= 2 && s[0] == '\\' && s[1] == '"' then ['"'] + UnescapeQuotes(s[2..])
    else [s[0]] + UnescapeQuotes(s[1..])
  }

  /** Quotes a path that holds a space or a double quote, escaping the
      double quotes inside it; any other path is returned as it is. */
  function QuotePath(path: string): (r: string)
    ensures path == "" ==> r == ""
    ensures !NeedsQuoting(path) ==> r == path
    ensures NeedsQuoting(path) ==>
              && |r| >= 2 && r[0] == '"' && r[|r| - 1] == '"'
    ensures '"' !in path && ' ' in path ==> r == ['"'] + path + ['"']
  {
    if path == "" then ""
    else if !NeedsQuoting(path) then path
    else ['"'] + EscapeQuotes(path) + ['"']
  }

  /** Escaping works character by character. */
  lemma {:induction false} EscapeQuotesAppend(a: string, b: string)
    ensures EscapeQuotes(a + b) == EscapeQuotes(a) + EscapeQuotes(b)
  {
    if a != [] {
      assert (a + b)[0] == a[0] && (a + b)[1..] == a[1..] + b;
      EscapeQuotesAppend(a[1..], b);
      var head := if a[0] == '"' then ['\\', '"'] else [a[0]];
      assert EscapeQuotes(a + b) == head + EscapeQuotes(a[1..] + b);
      assert EscapeQuotes(a) == head + EscapeQuotes(a[1..]);
      assert head + (EscapeQuotes(a[1..]) + EscapeQuotes(b)) == (head + EscapeQuotes(a[1..])) + EscapeQuotes(b);
    } else {
      assert a + b == b;
    }
  }

  /** Removes one layer of surrounding quotes (the first and the last
      character, when the first is a double quote) and unescapes the
      double quotes inside. */
  function UnquotePath(path: string): (r: string)
    ensures |r| <= |path|
    ensures '"' !in path ==> r == path
  {
    if path == "" then ""
    else if path[0] == '"' then (if |path| >= 2 then UnescapeQuotes(path[1..|path| - 1]) else "")
    else UnescapeQuotes(path)
  }

  /** Unescaping undoes escaping, for every text. */
  lemma {:induction false} UnescapeEscape(s: string)
    ensures UnescapeQuotes(EscapeQuotes(s)) == s
  {
    if s == [] {
    } else if s[0] == '"' {
      var rest := EscapeQuotes(s[1..]);
      assert EscapeQuotes(s) == ['\\', '"'] + rest;
      assert (['\\', '"'] + rest)[2..] == rest;
      UnescapeEscape(s[1..]);
    } else {
      var rest := EscapeQuotes(s[1..]);
      assert EscapeQuotes(s) == [s[0]] + rest;
      assert ([s[0]] + rest)[1..] == rest;
      UnescapeEscape(s[1..]);
    }
  }

  /** Round trip: unquoting a quoted path gives the path back, for every
      path, including native Windows paths whose backslashes are not
      escape characters. */
  lemma QuoteUnquoteRoundTrip(path: string)
    ensures UnquotePath(QuotePath(path)) == path
  {
    if path != "" && NeedsQuoting(path) {
      var q := ['"'] + EscapeQuotes(path) + ['"'];
      assert q[1..|q| - 1] == EscapeQuotes(path);
      UnescapeEscape(path);
    }
  }

  // ---------------------------------------------------------------------
  // Executable path

  /** The longest prefix of `s` that does not contain `stop`. */
  function PrefixBefore(s: string, stop: char): (r: string)
    ensures r <= s
    ensures stop !in r
    ensures r == s || s[|r|] == stop
  {
    if s == [] || s[0] == stop then [] else [s[0]] + PrefixBefore(s[1..], stop)
  }

  /** The prefix before the first `stop` is the one of length `n` when
      the first `n` characters avoid `stop` and `stop` (or the end) follows. */
  lemma PrefixBeforeIs(s: string, stop: char, n: nat)
    requires n <= |s|
    requires stop !in s[..n]
    requires n == |s| || s[n] == stop
    ensures PrefixBefore(s, stop) == s[..n]
  {
  }

  /** The first token of a command line: a double-quoted token with both its
      quotes (spaces inside it kept), or else everything up to the first
      space. An unterminated quote runs to the end of the command. */
  function ExtractExecutablePath(command: string): (r: string)
    ensures r <= command
    ensures command == "" ==> r == ""
    ensures command != "" && command[0] != '"' ==>
              ' ' !in r && (r == command || command[|r|] == ' ')
    ensures command != "" && command[0] == '"' ==>
              || (|r| >= 2 && r[|r| - 1] == '"' && '"' !in r[1..|r| - 1])
              || (r == command && '"' !in command[1..])
  {
    if command == "" then ""
    else if command[0] == '"' then
      var inner := PrefixBefore(command[1..], '"');
      if |inner| < |command| - 1 then command[..|inner| + 2] else command
    else PrefixBefore(command, ' ')
  }

  // ---------------------------------------------------------------------
  // File URLs

  datatype Platform = Win32 | Linux

  /** The characters the URL encoder escapes. */
  predicate Reserved(c: char) {
    c == ' ' || c == '+' || c == '\''
  }

  /** No character of `s` is reserved. */
  predicate Unreserved(s: string) {
    forall i :: 0 <= i < |s| ==> !Reserved(s[i])
  }

  function EncodeChar(c: char): string {
    if c == ' ' then "%20"
    else if c == '+' then "%2B"
    else if c == '\'' then "%27"
    else [c]
  }

  /** Escapes space as `%20`, `+` as `%2B` and `'` as `%27`; every other
      character, `:` and `/` included, is kept. */
  function PercentEncode(s: string): (r: string)
    ensures Unreserved(s) ==> r == s
  {
    if s == [] then [] else EncodeChar(s[0]) + PercentEncode(s[1..])
  }

  /** The encoded text has no reserved character left, and encoding brings
      in no backslash. */
  lemma {:induction false} PercentEncodeClean(s: string)
    ensures Unreserved(PercentEncode(s))
    ensures '\\' !in s ==> '\\' !in PercentEncode(s)
  {
    if s != [] {
      PercentEncodeClean(s[1..]);
      var e, rest := EncodeChar(s[0]), PercentEncode(s[1..]);
      assert PercentEncode(s) == e + rest;
      assert Unreserved(e);
    }
  }

  /** Encoding works character by character. */
  lemma {:induction false} PercentEncodeAppend(a: string, b: string)
    ensures PercentEncode(a + b) == PercentEncode(a) + PercentEncode(b)
  {
    if a != [] {
      assert (a + b)[0] == a[0] && (a + b)[1..] == a[1..] + b;
      PercentEncodeAppend(a[1..], b);
      assert PercentEncode(a + b) == EncodeChar(a[0]) + PercentEncode(a[1..] + b);
      assert EncodeChar(a[0]) + (PercentEncode(a[1..]) + PercentEncode(b))
          == (EncodeChar(a[0]) + PercentEncode(a[1..])) + PercentEncode(b);
    } else {
      assert a + b == b;
    }
  }

  lemma PercentEncodeOne(c: char)
    ensures PercentEncode([c]) == EncodeChar(c)
  {
    assert [c][1..] == [];
  }

  /** Encoding a text with one reserved character `c` between two stretches
      of plain text escapes `c` and keeps the rest. */
  lemma EncodeAround(a: string, c: char, b: string)
    requires Unreserved(a) && Unreserved(b)
    ensures PercentEncode(a + [c] + b) == a + EncodeChar(c) + b
  {
    PercentEncodeAppend(a + [c], b);
    PercentEncodeAppend(a, [c]);
    PercentEncodeOne(c);
  }

  /** As `EncodeAround`, with two reserved characters `c` and `d`. */
  lemma EncodeAroundTwo(a: string, c: char, b: string, d: char, e: string)
    requires Unreserved(a) && Unreserved(b) && Unreserved(e)
    ensures PercentEncode(a + [c] + b + [d] + e) == a + EncodeChar(c) + b + EncodeChar(d) + e
  {
    PercentEncodeAppend(a + [c] + b + [d], e);
    PercentEncodeAppend(a + [c] + b, [d]);
    PercentEncodeOne(d);
    EncodeAround(a, c, b);
  }

  /** The character a three-character escape `%2x` stands for. */
  function Unescaped(x: char): char {
    if x == '0' then ' ' else if x == 'B' then '+' else '\''
  }

  /** Reads the three escapes back; the partner of `PercentEncode`. */
  function PercentDecode(s: string): (r: string)
    ensures |r| <= |s|
  {
    if s == [] then []
    else if |s| >= 3 && s[0] == '%' && s[1] == '2' && (s[2] == '0' || s[2] == 'B' || s[2] == '7') then
      [Unescaped(s[2])] + PercentDecode(s[3..])
    else [s[0]] + PercentDecode(s[1..])
  }

  /** Decoding undoes encoding for every text without a `%` of its own. */
  lemma {:induction false} DecodeEncode(s: string)
    requires '%' !in s
    ensures PercentDecode(PercentEncode(s)) == s
  {
    if s != [] {
      var e, rest := EncodeChar(s[0]), PercentEncode(s[1..]);
      assert PercentEncode(s) == e + rest;
      assert '%' !in s[1..];
      DecodeEncode(s[1..]);
      if Reserved(s[0]) {
        assert (e + rest)[3..] == rest;
      } else {
        assert (e + rest)[1..] == rest;
      }
    }
  }

  /** Replaces every backslash by a forward slash. */
  function ForwardSlashes(s: string): (r: string)
    ensures |r| == |s|
    ensures '\\' !in r
  {
    if s == [] then [] else [if s[0] == '\\' then '/' else s[0]] + ForwardSlashes(s[1..])
  }

  /** Each character is kept, except that a backslash becomes a slash. */
  lemma {:induction false} ForwardSlashesAt(s: string, i: nat)
    requires i < |s|
    ensures ForwardSlashes(s)[i] == if s[i] == '\\' then '/' else s[i]
  {
    if i > 0 {
      ForwardSlashesAt(s[1..], i - 1);
    }
  }

  /** `ForwardSlashes` is the only text that agrees with the rule above at
      every index. */
  lemma ForwardSlashesIs(s: string, r: string)
    requires |r| == |s|
    requires forall i :: 0 <= i < |s| ==> r[i] == (if s[i] == '\\' then '/' else s[i])
    ensures ForwardSlashes(s) == r
  {
    forall i | 0 <= i < |s| {
      ForwardSlashesAt(s, i);
    }
  }

  /** The `file://` URL of a path: on Windows the separators become `/` and
      the drive path gets a leading `/`; elsewhere the absolute path is used
      as it is. Only the reserved characters are escaped. */
  function ToFileProtocolPath(path: string, platform: Platform): (r: string)
    ensures |r| >= 7 && r[..7] == "file://"
  {
    if platform == Win32 then "file:///" + PercentEncode(ForwardSlashes(path))
    else "file://" + PercentEncode(path)
  }

  /** Every URL starts with `file://` and holds no reserved character; on
      Windows a third slash follows and no backslash is left. */
  lemma FileUrlShape(path: string, platform: Platform)
    ensures var r := ToFileProtocolPath(path, platform);
            && |r| >= 7 && r[..7] == "file://"
            && Unreserved(r)
            && (platform == Win32 ==> |r| >= 8 && r[7] == '/' && '\\' !in r)
  {
    var s := if platform == Win32 then ForwardSlashes(path) else path;
    PercentEncodeClean(s);
  }

  /** A path without reserved characters only gets its prefix (and, on
      Windows, its separators) changed. */
  lemma FileUrlOfPlainPath(path: string)
    requires Unreserved(path)
    ensures ToFileProtocolPath(path, Linux) == "file://" + path
    ensures ToFileProtocolPath(path, Win32) == "file:///" + ForwardSlashes(path)
  {
    var f := ForwardSlashes(path);
    forall i | 0 <= i < |f|
      ensures !Reserved(f[i])
    {
      ForwardSlashesAt(path, i);
    }
  }

  /** The URL tail decodes back to the path it was made from: the path
      itself on Linux, and the slash-converted path on Windows. */
  lemma FileUrlDecodes(path: string)
    requires '%' !in path
    ensures PercentDecode(ToFileProtocolPath(path, Linux)[7..]) == path
    ensures PercentDecode(ToFileProtocolPath(path, Win32)[8..]) == ForwardSlashes(path)
  {
    var f := ForwardSlashes(path);
    assert '%' !in f by {
      forall i | 0 <= i < |path|
        ensures f[i] != '%'
      {
        ForwardSlashesAt(path, i);
      }
    }
    assert ToFileProtocolPath(path, Linux)[7..] == PercentEncode(path);
    assert ToFileProtocolPath(path, Win32)[8..] == PercentEncode(f);
    DecodeEncode(path);
    DecodeEncode(f);
  }
}
