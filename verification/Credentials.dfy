/**
 The key=value format of git credentials and the git config section that names the helper,
 pkg/gitcredentials/gitcredentials.go.
 */
module Credentials {
  import opened Text

  datatype Credentials = Credentials(
    protocol: string, url: string, path: string, host: string, username: string, password: string)

  const NONE := Credentials("", "", "", "", "", "")

  // ---- printing ----

  function Attribute(key: string, value: string): seq<string> {
    if value == "" then [] else [key + "=" + value]
  }

  function Request(c: Credentials): seq<string> {
    Attribute("protocol", c.protocol) + Attribute("url", c.url) + Attribute("path", c.path)
    + Attribute("host", c.host) + Attribute("username", c.username) + Attribute("password", c.password)
  }

  /** One `if` of ToString: an attribute is printed unless it is empty. */
  method AddAttribute(request: seq<string>, key: string, value: string) returns (r: seq<string>)
    ensures r == request + Attribute(key, value)
  {
    r := request;
    if value != "" {
      r := r + [key + "=" + value];
    }
  }

  method ToString(c: Credentials) returns (r: string)
    ensures r == Join(Request(c), "\n") + "\n"
  {
    hide Join, Attribute;
    var request: seq<string> := [];
    request := AddAttribute(request, "protocol", c.protocol);
    request := AddAttribute(request, "url", c.url);
    request := AddAttribute(request, "path", c.path);
    request := AddAttribute(request, "host", c.host);
    request := AddAttribute(request, "username", c.username);
    request := AddAttribute(request, "password", c.password);
    assert request == Request(c);
    r := Join(request, "\n") + "\n";
  }

  // ---- parsing ----

  function Set(c: Credentials, key: string, value: string): Credentials {
    if key == "protocol" then c.(protocol := value)
    else if key == "host" then c.(host := value)
    else if key == "username" then c.(username := value)
    else if key == "password" then c.(password := value)
    else if key == "url" then c.(url := value)
    else if key == "path" then c.(path := value)
    else c
  }

  function ParseLine(c: Credentials, line: string): Credentials {
    var parts := Split(TrimSpace(line), '=');
    if |parts| == 1 then c else Set(c, parts[0], Join(parts[1..], "="))
  }

  function ParseLines(c: Credentials, lines: seq<string>): Credentials {
    if lines == [] then c
    else ParseLine(ParseLines(c, lines[..|lines| - 1]), lines[|lines| - 1])
  }

  method Parse(raw: string) returns (c: Credentials)
    ensures c == ParseLines(NONE, Split(raw, '\n'))
  {
    c := NONE;
    var lines := Split(raw, '\n');
    for k := 0 to |lines|
      invariant c == ParseLines(NONE, lines[..k])
    {
      assert lines[..k + 1][..k] == lines[..k];
      var splitted := Split(TrimSpace(lines[k]), '=');
      if |splitted| == 1 {
        continue;
      }
      c := Set(c, splitted[0], Join(splitted[1..], "="));
    }
    assert lines[..|lines|] == lines;
  }

  // ---- the round trip ----

  /** No newline inside and no white space at the end. */
  predicate CleanField(s: string) {
    '\n' !in s && (s == "" || !IsSpace(s[|s| - 1]))
  }

  predicate Clean(c: Credentials) {
    && CleanField(c.protocol) && CleanField(c.url) && CleanField(c.path)
    && CleanField(c.host) && CleanField(c.username) && CleanField(c.password)
  }

  lemma {:induction false} ParseAppend(c: Credentials, a: seq<string>, b: seq<string>)
    ensures ParseLines(c, a + b) == ParseLines(ParseLines(c, a), b)
  {
    if b == [] {
      assert a + b == a;
    } else {
      var n := |b| - 1;
      assert (a + b)[..|a + b| - 1] == a + b[..n];
      ParseAppend(c, a, b[..n]);
    }
  }

  lemma AttributeParsed(c: Credentials, key: string, value: string)
    requires CleanField(value) && key != "" && '=' !in key && !IsSpace(key[0])
    ensures ParseLine(c, key + "=" + value) == Set(c, key, value)
  {
    var line := key + "=" + value;
    assert line[0] == key[0] && line[|line| - 1] == if value == "" then '=' else value[|value| - 1];
    assert TrimSpace(line) == line;
    SplitPart(key, value, '=');
    JoinSplit(value, '=');
    var parts := Split(line, '=');
    assert parts[1..] == Split(value, '=');
  }

  lemma AttributesParsed(c: Credentials, key: string, value: string)
    requires CleanField(value) && key != "" && '=' !in key && !IsSpace(key[0])
    ensures ParseLines(c, Attribute(key, value)) == if value == "" then c else Set(c, key, value)
  {
    if value != "" {
      AttributeParsed(c, key, value);
      var lines := Attribute(key, value);
      assert lines[..0] == [] && ParseLines(c, []) == c;
    }
  }

  lemma LettersNoSpace()
    ensures !IsSpace('p') && !IsSpace('u') && !IsSpace('h')
  {
  }

  lemma RequestParsed(c: Credentials)
    requires Clean(c)
    ensures ParseLines(NONE, Request(c)) == c
  {
    hide ParseLines, Attribute, IsSpace;
    assert !IsSpace('p') && !IsSpace('u') && !IsSpace('h') by { LettersNoSpace(); }
    var a1, a2, a3 := Attribute("protocol", c.protocol), Attribute("url", c.url), Attribute("path", c.path);
    var a4, a5, a6 := Attribute("host", c.host), Attribute("username", c.username), Attribute("password", c.password);
    var c1 := NONE.(protocol := c.protocol);
    var c2 := c1.(url := c.url);
    var c3 := c2.(path := c.path);
    var c4 := c3.(host := c.host);
    var c5 := c4.(username := c.username);
    AttributesParsed(NONE, "protocol", c.protocol);
    AttributesParsed(c1, "url", c.url);
    ParseAppend(NONE, a1, a2);
    AttributesParsed(c2, "path", c.path);
    ParseAppend(NONE, a1 + a2, a3);
    AttributesParsed(c3, "host", c.host);
    ParseAppend(NONE, a1 + a2 + a3, a4);
    AttributesParsed(c4, "username", c.username);
    ParseAppend(NONE, a1 + a2 + a3 + a4, a5);
    AttributesParsed(c5, "password", c.password);
    ParseAppend(NONE, a1 + a2 + a3 + a4 + a5, a6);
  }

  lemma RequestClean(c: Credentials)
    requires Clean(c)
    ensures forall k :: 0 <= k < |Request(c)| ==> '\n' !in Request(c)[k]
  {
  }

  lemma {:induction false} JoinNewline(lines: seq<string>)
    requires lines != []
    ensures Join(lines + [""], "\n") == Join(lines, "\n") + "\n"
  {
    if |lines| == 1 {
      assert (lines + [""])[1..] == [""];
      assert Join([""], "\n") == "";
    } else {
      assert (lines + [""])[1..] == lines[1..] + [""];
      JoinNewline(lines[1..]);
    }
  }

  lemma SplitText(lines: seq<string>)
    requires forall k :: 0 <= k < |lines| ==> '\n' !in lines[k]
    ensures Split(Join(lines, "\n") + "\n", '\n') == if lines == [] then ["", ""] else lines + [""]
  {
    if lines == [] {
      SplitPart("", "", '\n');
      assert Join(lines, "\n") + "\n" == "" + ['\n'] + "";
      assert Split("", '\n') == [""];
    } else {
      JoinNewline(lines);
      SplitJoin(lines + [""], '\n');
    }
  }

  lemma BlankLine(c: Credentials, lines: seq<string>)
    ensures ParseLines(c, lines + [""]) == ParseLines(c, lines)
  {
    assert (lines + [""])[..|lines|] == lines;
    assert TrimSpace("") == "" && Split("", '=') == [""];
  }

  // what parsing can ever return

  lemma {:induction false} TrimRightFacts(s: string, cut: set<char>)
    ensures TrimRight(s, cut) <= s
    ensures TrimRight(s, cut) != "" ==> TrimRight(s, cut)[|TrimRight(s, cut)| - 1] !in cut
  {
    if s != "" && s[|s| - 1] in cut {
      TrimRightFacts(s[..|s| - 1], cut);
    }
  }

  lemma {:induction false} TrimLeftFacts(s: string, cut: set<char>)
    ensures forall c :: c in TrimLeft(s, cut) ==> c in s
  {
    if s != "" && s[0] in cut {
      TrimLeftFacts(s[1..], cut);
    }
  }

  lemma ValueClean(line: string)
    requires '\n' !in line
    ensures var parts := Split(TrimSpace(line), '=');
            |parts| > 1 ==> CleanField(Join(parts[1..], "="))
  {
    var s := TrimSpace(line);
    TrimLeftFacts(line, SPACES);
    TrimRightFacts(TrimLeft(line, SPACES), SPACES);
    var parts := Split(s, '=');
    JoinSplit(s, '=');
    if |parts| > 1 {
      var value := Join(parts[1..], "=");
      assert s == parts[0] + "=" + value;
      if value != "" {
        assert s[|s| - 1] == value[|value| - 1];
      }
      forall k | 0 <= k < |value| ensures value[k] != '\n' {
        assert value[k] == s[|parts[0]| + 1 + k];
      }
    }
  }

  lemma {:induction false} ParsedClean(c: Credentials, lines: seq<string>)
    requires Clean(c) && forall k :: 0 <= k < |lines| ==> '\n' !in lines[k]
    ensures Clean(ParseLines(c, lines))
  {
    hide Split, TrimSpace, Join, CleanField;
    if lines != [] {
      ParsedClean(c, lines[..|lines| - 1]);
      ValueClean(lines[|lines| - 1]);
    }
  }

  lemma NoneClean()
    ensures Clean(NONE)
  {
  }

  /**
   Parsing what was printed gives the credentials back if and only if no field contains a newline or
   ends in white space; equal signs and any choice of empty fields do no harm.
   */
  lemma RoundTrip(c: Credentials)
    ensures ParseLines(NONE, Split(Join(Request(c), "\n") + "\n", '\n')) == c <==> Clean(c)
  {
    hide Request, Clean, TrimSpace, ParseLine;
    var raw := Join(Request(c), "\n") + "\n";
    if Clean(c) {
      RequestClean(c);
      SplitText(Request(c));
      RequestParsed(c);
      BlankLine(NONE, Request(c));
      BlankLine(NONE, []);
      BlankLine(NONE, [""]);
      assert [""] + [""] == ["", ""] && [] + [""] == [""];
    } else {
      SplitClean(raw, '\n');
      NoneClean();
      ParsedClean(NONE, Split(raw, '\n'));
    }
  }

  /** What is printed, under which names, and in which order. */
  lemma RequestNames(c: Credentials)
    ensures c.protocol != "" && c.url != "" && c.path != "" && c.host != "" && c.username != "" && c.password != "" ==>
              Request(c) == ["protocol=" + c.protocol, "url=" + c.url, "path=" + c.path, "host=" + c.host,
                             "username=" + c.username, "password=" + c.password]
    ensures forall line :: line in Request(c) <==>
              || (c.protocol != "" && line == "protocol=" + c.protocol)
              || (c.url != "" && line == "url=" + c.url)
              || (c.path != "" && line == "path=" + c.path)
              || (c.host != "" && line == "host=" + c.host)
              || (c.username != "" && line == "username=" + c.username)
              || (c.password != "" && line == "password=" + c.password)
  {
    assert "protocol" + "=" == "protocol=" && "url" + "=" == "url=" && "path" + "=" == "path=";
    assert "host" + "=" == "host=" && "username" + "=" == "username=" && "password" + "=" == "password=";
  }

  /** Which field a line sets. */
  lemma LineNames(c: Credentials, v: string)
    requires CleanField(v)
    ensures ParseLine(c, "protocol=" + v) == c.(protocol := v) && ParseLine(c, "url=" + v) == c.(url := v)
    ensures ParseLine(c, "path=" + v) == c.(path := v) && ParseLine(c, "host=" + v) == c.(host := v)
    ensures ParseLine(c, "username=" + v) == c.(username := v) && ParseLine(c, "password=" + v) == c.(password := v)
  {
    hide ParseLine, IsSpace;
    LettersNoSpace();
    AttributeParsed(c, "protocol", v);
    assert "protocol" + "=" == "protocol=";
    AttributeParsed(c, "url", v);
    assert "url" + "=" == "url=";
    AttributeParsed(c, "path", v);
    assert "path" + "=" == "path=";
    AttributeParsed(c, "host", v);
    assert "host" + "=" == "host=";
    AttributeParsed(c, "username", v);
    assert "username" + "=" == "username=";
    AttributeParsed(c, "password", v);
    assert "password" + "=" == "password=";
  }

  // ---- the helper section of a git config ----

  predicate IsCredentialHeader(line: string) {
    TrimSpace(line) == "[credential]"
  }

  predicate IsHeader(line: string) {
    var trimmed := TrimSpace(line);
    trimmed != "" && trimmed[0] == '['
  }

  /** Whether a credential section is open behind the lines. */
  predicate Inside(lines: seq<string>) {
    if lines == [] then false
    else
      var line := lines[|lines| - 1];
      IsCredentialHeader(line) || (Inside(lines[..|lines| - 1]) && !IsHeader(line))
  }

  function Outside(lines: seq<string>): seq<string> {
    if lines == [] then []
    else Outside(lines[..|lines| - 1]) + if Inside(lines) then [] else [lines[|lines| - 1]]
  }

  method RemoveCredentialHelper(content: string) returns (r: string)
    ensures r == Join(Outside(Lines(content)), "\n")
  {
    var scan := Lines(content);
    var isCredential := false;
    var out: seq<string> := [];
    for k := 0 to |scan|
      invariant isCredential == Inside(scan[..k])
      invariant out == Outside(scan[..k])
    {
      var line := scan[k];
      assert scan[..k + 1][..k] == scan[..k];
      if TrimSpace(line) == "[credential]" {
        isCredential := true;
        continue;
      } else if isCredential {
        var trimmed := TrimSpace(line);
        if |trimmed| > 0 && trimmed[0] == '[' {
          isCredential := false;
        } else {
          continue;
        }
      }
      out := out + [line];
    }
    assert scan[..|scan|] == scan;
    r := Join(out, "\n");
  }

  /** What is kept contains no credential header, keeps its lines whole, and is kept again. */
  lemma {:induction false} OutsideStable(lines: seq<string>)
    requires forall k :: 0 <= k < |lines| ==> '\n' !in lines[k]
    ensures forall k :: 0 <= k < |Outside(lines)| ==>
              !IsCredentialHeader(Outside(lines)[k]) && '\n' !in Outside(lines)[k]
    ensures Outside(Outside(lines)) == Outside(lines) && !Inside(Outside(lines))
  {
    if lines != [] {
      var n := |lines| - 1;
      OutsideStable(lines[..n]);
      var kept := Outside(lines[..n]);
      if Inside(lines) {
        assert Outside(lines) == kept;
      } else {
        var all := kept + [lines[n]];
        assert Outside(lines) == all && all[..|all| - 1] == kept && all[|all| - 1] == lines[n];
        assert !Inside(all);
      }
    }
  }

  /** ConfigureHelper's new text: the old sections without the helper, then a new helper section. */
  function Configured(kept: string, helper: string): string {
    kept + "\n[credential]\n        " + helper + "\n"
  }

  lemma ConfiguredLines(kept: seq<string>, helper: string)
    requires '\n' !in helper && forall k :: 0 <= k < |kept| ==> '\n' !in kept[k]
    ensures Lines(Configured(Join(kept, "\n"), helper))
            == (if kept == [] then [""] else kept) + ["[credential]", "        " + helper]
  {
    hide Join, Lines, Configured;
    var base := if kept == [] then [""] else kept;
    BlankJoin();
    ConfiguredText(base, helper);
    SectionClean(helper);
    LinesOfText(base + ["[credential]", "        " + helper]);
  }

  lemma LinesOfText(lines: seq<string>)
    requires lines != [] && forall k :: 0 <= k < |lines| ==> '\n' !in lines[k]
    ensures Lines(Join(lines, "\n") + "\n") == lines
  {
    hide Join, Split;
    SplitText(lines);
    assert (lines + [""])[..|lines|] == lines;
  }

  lemma BlankJoin()
    ensures Join([""], "\n") == Join([], "\n")
  {
  }

  lemma SectionClean(helper: string)
    requires '\n' !in helper
    ensures '\n' !in "[credential]" && '\n' !in "        " + helper
  {
  }

  lemma ConfiguredText(base: seq<string>, helper: string)
    requires base != []
    ensures Configured(Join(base, "\n"), helper)
            == Join(base + ["[credential]", "        " + helper], "\n") + "\n"
  {
    var body := "        " + helper;
    var section := ["[credential]", body];
    assert section[1..] == [body] && Join(section[1..], "\n") == body;
    assert Join(section, "\n") == "[credential]" + "\n" + body;
    JoinAppend(base, section);
    Glue(Join(base, "\n"), helper);
  }

  lemma Glue(text: string, helper: string)
    ensures Configured(text, helper)
            == text + "\n" + ("[credential]" + "\n" + ("        " + helper)) + "\n"
  {
    assert "\n[credential]\n        " == "\n" + "[credential]" + "\n" + "        ";
    assert text + "\n" + ("[credential]" + "\n" + ("        " + helper))
        == text + ("\n" + "[credential]" + "\n" + "        ") + helper;
  }

  lemma {:induction false} JoinAppend(a: seq<string>, b: seq<string>)
    requires a != [] && b != []
    ensures Join(a + b, "\n") == Join(a, "\n") + "\n" + Join(b, "\n")
  {
    if |a| == 1 {
      assert (a + b)[1..] == b;
    } else {
      assert (a + b)[1..] == a[1..] + b;
      JoinAppend(a[1..], b);
    }
  }

  lemma OutsideSection(kept: seq<string>, helper: string)
    requires Outside(kept) == kept && !Inside(kept)
    requires helper != "" && !IsSpace(helper[0]) && helper[0] != '['
    ensures Outside(kept + ["[credential]", "        " + helper]) == kept
  {
    hide IsHeader, IsCredentialHeader;
    var header, body := "[credential]", "        " + helper;
    var begun := kept + [header];
    var lines := kept + [header, body];
    assert lines[..|lines| - 1] == begun && begun[..|begun| - 1] == kept;
    HeaderFacts();
    BodyNoHeader(helper);
    assert Inside(begun) && Outside(begun) == kept;
    assert Inside(lines) && Outside(lines) == kept;
  }

  lemma HeaderFacts()
    ensures IsCredentialHeader("[credential]")
  {
    hide SPACES, Trim;
    var s := "[credential]";
    Brackets();
    TrimKeeps(s, SPACES);
  }

  lemma Brackets()
    ensures '[' !in SPACES && ']' !in SPACES
  {
  }

  lemma BodyNoHeader(helper: string)
    requires helper != "" && !IsSpace(helper[0]) && helper[0] != '['
    ensures !IsHeader("        " + helper) && !IsCredentialHeader("        " + helper)
  {
    SkipBlanks(8, helper);
    assert "        " == seq(8, i => ' ');
    TrimRightFacts(helper, SPACES);
    var trimmed := TrimSpace("        " + helper);
    assert trimmed != "" ==> trimmed[0] == helper[0];
  }

  lemma {:induction false} SkipBlanks(n: nat, s: string)
    requires s != "" && !IsSpace(s[0])
    ensures TrimLeft(seq(n, i => ' ') + s, SPACES) == s
  {
    if n > 0 {
      var t := seq(n, i => ' ') + s;
      assert t[0] == ' ' && t[1..] == seq(n - 1, i => ' ') + s;
      SkipBlanks(n - 1, s);
    } else {
      assert seq(0, i => ' ') + s == s;
    }
  }

  /** Removing the helper undoes configuring it, for every git config. */
  lemma RemoveUndoesConfigure(content: string, helper: string)
    requires helper != "" && !IsSpace(helper[0]) && helper[0] != '[' && '\n' !in helper
    ensures var kept := Join(Outside(Lines(content)), "\n");
            Join(Outside(Lines(Configured(kept, helper))), "\n") == kept
  {
    SplitClean(content, '\n');
    var kept := Outside(Lines(content));
    OutsideStable(Lines(content));
    ConfiguredLines(kept, helper);
    if kept == [] {
      assert [""][..0] == [] && TrimSpace("") == "";
      assert Outside([""]) == [""] && !Inside([""]);
      OutsideSection([""], helper);
      assert Join([""], "\n") == Join(kept, "\n");
    } else {
      OutsideSection(kept, helper);
    }
  }

  // ---- which lines are kept ----

  /** h is a credential header and no header stands below it down to line k. */
  predicate Heads(lines: seq<string>, h: nat, k: nat)
    requires h <= k < |lines|
  {
    TrimSpace(lines[h]) == "[credential]" && forall m :: h < m <= k ==> !("[" <= TrimSpace(lines[m]))
  }

  /** Line k stands in a credential section: the last header at or above it is a credential one. */
  predicate InSection(lines: seq<string>, k: nat)
    requires k < |lines|
  {
    exists h :: 0 <= h <= k && Heads(lines, h, k)
  }

  lemma {:induction false} InsideIff(lines: seq<string>)
    requires lines != []
    ensures Inside(lines) <==> InSection(lines, |lines| - 1)
  {
    hide TrimSpace;
    var n := |lines| - 1;
    var init := lines[..n];
    if n > 0 {
      InsideIff(init);
      var last := n - 1;
      if h :| 0 <= h <= last && Heads(init, h, last) {
        assert !IsHeader(lines[n]) ==> Heads(lines, h, n);
      }
      if h :| 0 <= h <= n && Heads(lines, h, n) && h < n {
        assert Heads(init, h, n - 1) && !IsHeader(lines[n]);
      }
    }
    assert TrimSpace(lines[n]) == "[credential]" ==> Heads(lines, n, n);
  }

  /** The lines before n that stand in no credential section. */
  function NotInSection(lines: seq<string>, n: nat): seq<string>
    requires n <= |lines|
  {
    if n == 0 then []
    else NotInSection(lines, n - 1) + if InSection(lines, n - 1) then [] else [lines[n - 1]]
  }

  lemma SectionPrefix(lines: seq<string>, n: nat, k: nat)
    requires k < n <= |lines|
    ensures InSection(lines[..n], k) <==> InSection(lines, k)
  {
    hide TrimSpace;
    var part := lines[..n];
    if h :| 0 <= h <= k && Heads(part, h, k) {
      assert Heads(lines, h, k);
    }
    if h :| 0 <= h <= k && Heads(lines, h, k) {
      assert Heads(part, h, k);
    }
  }

  /** Removal keeps, in order, exactly the lines that stand in no credential section. */
  lemma {:induction false} OutsideIff(lines: seq<string>, n: nat)
    requires n <= |lines|
    ensures Outside(lines[..n]) == NotInSection(lines, n)
  {
    hide InSection, Inside;
    if n > 0 {
      OutsideIff(lines, n - 1);
      assert lines[..n][..n - 1] == lines[..n - 1];
      InsideIff(lines[..n]);
      SectionPrefix(lines, n, n - 1);
    }
  }
}
