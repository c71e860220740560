/** The cases tabulated in `packages/utils/path.test.ts`, one lemma per
    row. Each row lemma names its input as a parameter fixed by its
    precondition and derives the expected output through a small general
    lemma stated on the pieces of the input (where its space, quote or
    reserved characters sit), which in turn rests on the lemmas of
    `PathUtils`. */
module PathCases {
  import opened PathUtils

  // Quoting. The round trip the table also checks holds for every path:
  // see `PathUtils.QuoteUnquoteRoundTrip`.

  /** No character of `s` is `c`; stated index by index, which is how the
      rows below check it on their literal paths. */
  predicate Avoids(s: string, c: char) {
    forall i :: 0 <= i < |s| ==> s[i] != c
  }

  /** A path with neither a space nor a double quote is kept as it is. */
  lemma QuotedAsItself(path: string)
    requires Avoids(path, ' ') && Avoids(path, '"')
    ensures QuotePath(path) == path
  {
  }

  /** A path with a space (at `k`) and no double quote is wrapped in quotes. */
  lemma QuotedAs(path: string, k: nat, expected: string)
    requires k < |path| && path[k] == ' '
    requires Avoids(path, '"')
    requires expected == ['"'] + path + ['"']
    ensures QuotePath(path) == expected
  {
  }

  /** A path with one double quote is wrapped, and the quote escaped. */
  lemma QuotedWithEscapeAs(path: string, before: string, after: string, expected: string)
    requires path == before + ['"'] + after
    requires Avoids(before, '"') && Avoids(after, '"')
    requires expected == ['"'] + (before + ['\\', '"'] + after) + ['"']
    ensures QuotePath(path) == expected
  {
    assert NeedsQuoting(path) by {
      assert path[|before|] == '"';
    }
    assert EscapeQuotes(path) == before + ['\\', '"'] + after by {
      EscapeQuotesAppend(before + ['"'], after);
      EscapeQuotesAppend(before, ['"']);
    }
  }

  lemma QuoteEmptyPath()
    ensures QuotePath("") == ""
  {
  }

  lemma QuotePlainPath(path: string)
    requires path == "/my/path"
    ensures QuotePath(path) == "/my/path"
  {
    QuotedAsItself(path);
  }

  lemma QuotePathWithSpaces(path: string)
    requires path == "/my/path with spaces"
    ensures QuotePath(path) == "\"/my/path with spaces\""
  {
    QuotedAs(path, 8, "\"/my/path with spaces\"");
  }

  lemma QuotePathWithQuote(path: string)
    requires path == "/my/weird\"path"
    ensures QuotePath(path) == "\"/my/weird\\\"path\""
  {
    QuotedWithEscapeAs(path, "/my/weird", "path", "\"/my/weird\\\"path\"");
  }

  lemma QuoteWindowsPath(path: string)
    requires path == "c:\\Windows\\test.dll"
    ensures QuotePath(path) == "c:\\Windows\\test.dll"
  {
    QuotedAsItself(path);
  }

  lemma QuoteWindowsPathWithSpace(path: string)
    requires path == "c:\\Windows\\test test.dll"
    ensures QuotePath(path) == "\"c:\\Windows\\test test.dll\""
  {
    QuotedAs(path, 15, "\"c:\\Windows\\test test.dll\"");
  }

  // Executable extraction.

  /** An unquoted command whose first space is at index `n`. */
  lemma ExtractsUnquotedAs(command: string, n: nat, expected: string)
    requires n < |command| && command[n] == ' '
    requires forall i :: 0 <= i < n ==> command[i] != ' '
    requires 0 < n && command[0] != '"'
    requires expected == command[..n]
    ensures ExtractExecutablePath(command) == expected
  {
    PrefixBeforeIs(command, ' ', n);
  }

  /** A command that starts with a quoted token of `n` characters. */
  lemma ExtractsQuotedAs(command: string, n: nat, expected: string)
    requires n + 2 <= |command| && command[0] == '"' && command[n + 1] == '"'
    requires forall i :: 1 <= i <= n ==> command[i] != '"'
    requires expected == command[..n + 2]
    ensures ExtractExecutablePath(command) == expected
  {
    assert command[1..][..n] == command[1..n + 1];
    PrefixBeforeIs(command[1..], '"', n);
  }

  lemma ExtractFromEmptyCommand()
    ensures ExtractExecutablePath("") == ""
  {
  }

  lemma ExtractUnquotedExecutable(command: string)
    requires command == "/my/cmd -some -args"
    ensures ExtractExecutablePath(command) == "/my/cmd"
  {
    ExtractsUnquotedAs(command, 7, "/my/cmd");
  }

  lemma ExtractQuotedExecutable(command: string)
    requires command == "\"/my/cmd\" -some -args"
    ensures ExtractExecutablePath(command) == "\"/my/cmd\""
  {
    ExtractsQuotedAs(command, 7, "\"/my/cmd\"");
  }

  lemma ExtractQuotedExecutableAlone(command: string)
    requires command == "\"/my/cmd\""
    ensures ExtractExecutablePath(command) == "\"/my/cmd\""
  {
    ExtractsQuotedAs(command, 7, "\"/my/cmd\"");
  }

  lemma ExtractQuotedExecutableWithSpaces(command: string)
    requires command == "\"/my/cmd and space\" -some -flags"
    ensures ExtractExecutablePath(command) == "\"/my/cmd and space\""
  {
    ExtractsQuotedAs(command, 17, "\"/my/cmd and space\"");
  }

  lemma ExtractEmptyQuotedExecutable(command: string)
    requires command == "\"\" -some -flags"
    ensures ExtractExecutablePath(command) == "\"\""
  {
    ExtractsQuotedAs(command, 0, "\"\"");
  }

  // File URLs. Each row names the path's pieces around its reserved
  // characters; on Windows, `s` is the path with its backslashes turned
  // into slashes.

  lemma LinuxUrlAs(path: string, a: string, c: char, b: string, expected: string)
    requires path == a + [c] + b
    requires Unreserved(a) && Unreserved(b)
    requires expected == "file://" + (a + EncodeChar(c) + b)
    ensures ToFileProtocolPath(path, Linux) == expected
  {
    EncodeAround(a, c, b);
  }

  lemma LinuxUrlAsTwo(path: string, a: string, c: char, b: string, d: char, e: string, expected: string)
    requires path == a + [c] + b + [d] + e
    requires Unreserved(a) && Unreserved(b) && Unreserved(e)
    requires expected == "file://" + (a + EncodeChar(c) + b + EncodeChar(d) + e)
    ensures ToFileProtocolPath(path, Linux) == expected
  {
    EncodeAroundTwo(a, c, b, d, e);
  }

  lemma WindowsUrlAs(path: string, s: string, a: string, c: char, b: string, expected: string)
    requires |s| == |path|
    requires forall i :: 0 <= i < |path| ==> s[i] == (if path[i] == '\\' then '/' else path[i])
    requires s == a + [c] + b
    requires Unreserved(a) && Unreserved(b)
    requires expected == "file:///" + (a + EncodeChar(c) + b)
    ensures ToFileProtocolPath(path, Win32) == expected
  {
    ForwardSlashesIs(path, s);
    EncodeAround(a, c, b);
  }

  lemma WindowsUrlAsTwo(path: string, s: string, a: string, c: char, b: string, d: char, e: string, expected: string)
    requires |s| == |path|
    requires forall i :: 0 <= i < |path| ==> s[i] == (if path[i] == '\\' then '/' else path[i])
    requires s == a + [c] + b + [d] + e
    requires Unreserved(a) && Unreserved(b) && Unreserved(e)
    requires expected == "file:///" + (a + EncodeChar(c) + b + EncodeChar(d) + e)
    ensures ToFileProtocolPath(path, Win32) == expected
  {
    ForwardSlashesIs(path, s);
    EncodeAroundTwo(a, c, b, d, e);
  }

  lemma FileUrlWithSpaceOnWindows(path: string)
    requires path == "C:\\handle\\space test"
    ensures ToFileProtocolPath(path, Win32) == "file:///C:/handle/space%20test"
  {
    WindowsUrlAs(path, "C:/handle/space test", "C:/handle/space", ' ', "test", "file:///C:/handle/space%20test");
  }

  lemma FileUrlWithSpaceOnLinux(path: string)
    requires path == "/handle/space test"
    ensures ToFileProtocolPath(path, Linux) == "file:///handle/space%20test"
  {
    LinuxUrlAs(path, "/handle/space", ' ', "test", "file:///handle/space%20test");
  }

  lemma FileUrlWithPlusOnWindows(path: string)
    requires path == "C:\\escapeplus\\+"
    ensures ToFileProtocolPath(path, Win32) == "file:///C:/escapeplus/%2B"
  {
    WindowsUrlAs(path, "C:/escapeplus/+", "C:/escapeplus/", '+', "", "file:///C:/escapeplus/%2B");
  }

  lemma FileUrlWithPlusOnLinux(path: string)
    requires path == "/escapeplus/+"
    ensures ToFileProtocolPath(path, Linux) == "file:///escapeplus/%2B"
  {
    LinuxUrlAs(path, "/escapeplus/", '+', "", "file:///escapeplus/%2B");
  }

  lemma FileUrlWithSingleQuoteOnWindows(path: string)
    requires path == "C:\\handle\\single quote'"
    ensures ToFileProtocolPath(path, Win32) == "file:///C:/handle/single%20quote%27"
  {
    WindowsUrlAsTwo(path, "C:/handle/single quote'", "C:/handle/single", ' ', "quote", '\'', "",
                    "file:///C:/handle/single%20quote%27");
  }

  lemma FileUrlWithSingleQuoteOnLinux(path: string)
    requires path == "/handle/single quote'"
    ensures ToFileProtocolPath(path, Linux) == "file:///handle/single%20quote%27"
  {
    LinuxUrlAsTwo(path, "/handle/single", ' ', "quote", '\'', "", "file:///handle/single%20quote%27");
  }
}
