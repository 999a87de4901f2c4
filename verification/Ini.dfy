// The ini reader and writer of src/Util/mini.h, with the trimming of
// src/Util/util.cpp.

module IniText {
  import opened Wrappers

  // ---- Trimming ----

  predicate Blank(c: char) { c == ' ' || c == '\r' || c == '\n' || c == '\t' }

  /** The character whose lookup is outside trim's table of 0xFF entries. */
  const OUTSIDE: char := 0xFF as char

  function TrimBack(s: string): Option<string> {
    if s == "" then Some("")
    else if s[|s| - 1] == OUTSIDE then None
    else if Blank(s[|s| - 1]) then TrimBack(s[..|s| - 1])
    else Some(s)
  }

  function TrimFront(s: string): Option<string> {
    if s == "" then Some("")
    else if s[0] == OUTSIDE then None
    else if Blank(s[0]) then TrimFront(s[1..])
    else Some(s)
  }

  /** What trim leaves, or nothing when it meets the character outside its table and throws. */
  function Trim(s: string): Option<string> {
    match TrimBack(s)
    case None => None
    case Some(r) => TrimFront(r)
  }

  predicate AllBlank(s: string) { forall i | 0 <= i < |s| :: Blank(s[i]) }

  predicate Solid(c: char) { !Blank(c) && c != OUTSIDE }

  /** Nothing to trim at either end, and nothing there to throw on. */
  predicate Clean(s: string) {
    s == "" || (Solid(s[0]) && Solid(s[|s| - 1]))
  }

  lemma {:induction false} TrimBackIs(s: string, b: string)
    requires AllBlank(b) && (s == "" || Solid(s[|s| - 1]))
    ensures TrimBack(s + b) == Some(s)
  {
    if b == "" {
      assert s + b == s;
    } else {
      var t := s + b;
      assert t[..|t| - 1] == s + b[..|b| - 1] && t[|t| - 1] == b[|b| - 1];
      TrimBackIs(s, b[..|b| - 1]);
    }
  }

  lemma {:induction false} TrimFrontIs(a: string, s: string)
    requires AllBlank(a) && (s == "" || Solid(s[0]))
    ensures TrimFront(a + s) == Some(s)
  {
    if a == "" {
      assert a + s == s;
    } else {
      assert (a + s)[1..] == a[1..] + s;
      TrimFrontIs(a[1..], s);
    }
  }

  /** Blanks around a clean text are exactly what trim takes away. */
  lemma TrimIs(a: string, s: string, b: string)
    requires AllBlank(a) && AllBlank(b) && Clean(s)
    ensures Trim(a + s + b) == Some(s)
  {
    if s == "" {
      TrimBackIs("", a + b);
      assert a + s + b == "" + (a + b);
      assert TrimFront("") == Some("");
    } else {
      TrimBackIs(a + s, b);
      TrimFrontIs(a, s);
    }
  }

  lemma {:induction false} TrimBackCuts(s: string) returns (b: string)
    requires TrimBack(s).Some?
    ensures var r := TrimBack(s).value;
      s == r + b && AllBlank(b) && (r == "" || Solid(r[|r| - 1]))
  {
    if s == "" || !Blank(s[|s| - 1]) {
      b := "";
    } else {
      var c := TrimBackCuts(s[..|s| - 1]);
      b := c + [s[|s| - 1]];
    }
  }

  lemma {:induction false} TrimFrontCuts(s: string) returns (a: string)
    requires TrimFront(s).Some?
    ensures var r := TrimFront(s).value;
      s == a + r && AllBlank(a) && (r == "" || Solid(r[0]))
  {
    if s == "" || !Blank(s[0]) {
      a := "";
    } else {
      var c := TrimFrontCuts(s[1..]);
      a := [s[0]] + c;
    }
  }

  /** Whatever trim returns is clean, and only blanks were cut off around it. */
  lemma TrimCuts(s: string) returns (a: string, b: string)
    requires Trim(s).Some?
    ensures s == a + Trim(s).value + b && AllBlank(a) && AllBlank(b) && Clean(Trim(s).value)
  {
    var r := TrimBack(s).value;
    b := TrimBackCuts(s);
    a := TrimFrontCuts(r);
    var t := TrimFront(r).value;
    if t != "" {
      assert t[|t| - 1] == r[|r| - 1];
    }
  }

  // ---- Splitting ----

  /** No character of s is one of the delimiters. */
  predicate Free(s: string, delims: string) {
    forall i | 0 <= i < |s| :: s[i] !in delims
  }

  function RunLength(s: string, delims: string): (n: nat)
    ensures n <= |s| && Free(s[..n], delims) && (n < |s| ==> s[n] in delims)
  {
    if s == "" || s[0] in delims then 0
    else
      var n := 1 + RunLength(s[1..], delims);
      assert s[..n] == [s[0]] + s[1..][..n - 1];
      n
  }

  /** The non-empty pieces of s between delimiters. */
  function Tokens(s: string, delims: string): seq<string>
    decreases |s|
  {
    if s == "" then []
    else if s[0] in delims then Tokens(s[1..], delims)
    else
      var n := RunLength(s, delims);
      [s[..n]] + Tokens(s[n..], delims)
  }

  function Piece(s: string): seq<string> { if s == "" then [] else [s] }

  lemma {:induction false} RunEnds(a: string, c: char, rest: string, delims: string)
    requires Free(a, delims) && c in delims
    ensures RunLength(a + [c] + rest, delims) == |a|
  {
    if a != "" {
      assert (a + [c] + rest)[1..] == a[1..] + [c] + rest;
      RunEnds(a[1..], c, rest, delims);
    }
  }

  /** A delimiter ends the piece before it. */
  lemma TokensCut(a: string, c: char, rest: string, delims: string)
    requires Free(a, delims) && c in delims
    ensures Tokens(a + [c] + rest, delims) == Piece(a) + Tokens(rest, delims)
  {
    var s := a + [c] + rest;
    if a == "" {
      assert s[1..] == rest;
    } else {
      RunEnds(a, c, rest, delims);
      assert s[..|a|] == a && s[|a|..] == [c] + rest;
      assert s[|a|..][1..] == rest;
    }
  }

  lemma {:induction false} RunWhole(a: string, delims: string)
    requires Free(a, delims)
    ensures RunLength(a, delims) == |a|
  {
    if a != "" {
      RunWhole(a[1..], delims);
    }
  }

  lemma TokensWhole(a: string, delims: string)
    requires Free(a, delims)
    ensures Tokens(a, delims) == Piece(a)
  {
    if a != "" {
      RunWhole(a, delims);
      assert a[..|a|] == a && a[|a|..] == "";
    }
  }

  /** Every piece is a non-empty part of the text without a delimiter. */
  lemma {:induction false} TokensAreFree(s: string, delims: string)
    ensures forall t | t in Tokens(s, delims) :: t != "" && Free(t, delims) && (forall c | c in t :: c in s)
    decreases |s|
  {
    if s == "" {
    } else if s[0] in delims {
      TokensAreFree(s[1..], delims);
    } else {
      var n := RunLength(s, delims);
      assert n > 0;
      TokensAreFree(s[n..], delims);
    }
  }

  // ---- Reading ----

  datatype Line = Ignored | Section(tag: string) | Entry(name: string, value: string)

  /** Where the name of a line ends: at the first '=', or at its end. */
  function NameLength(s: string): (n: nat)
    ensures n <= |s| && '=' !in s[..n] && (n < |s| ==> s[n] == '=')
  {
    if s == "" || s[0] == '=' then 0
    else
      var n := 1 + NameLength(s[1..]);
      assert s[..n] == [s[0]] + s[1..][..n - 1];
      n
  }

  predicate Comment(s: string) {
    s == "" || s[0] == ';' || s[0] == '#'
  }

  predicate Bracketed(s: string) {
    |s| >= 3 && s[0] == '[' && s[|s| - 1] == ']'
  }

  /** What a trimmed line says; nothing when trimming a part of it throws. */
  function Meaning(s: string): Option<Line> {
    if Comment(s) then Some(Ignored)
    else if Bracketed(s) then
      match Trim(s[1..|s| - 1])
      case None => None
      case Some(tag) => Some(Section(tag))
    else
      var n := NameLength(s);
      if n == |s| then Some(Entry(s, "")) else
        match Trim(s[n + 1..])
        case None => None
        case Some(value) => Some(Entry(s[..n], value))
  }

  function Classify(line: string): Option<Line> {
    match Trim(line)
    case None => None
    case Some(s) => Meaning(s)
  }

  /** One line read: the section and the map after it; nothing when a trim throws. */
  function ReadLine(line: string, tag: string, m: map<string, string>): Option<(string, map<string, string>)> {
    match Classify(line)
    case None => None
    case Some(Ignored) => Some((tag, m))
    case Some(Section(t)) => Some((t, m))
    case Some(Entry(name, value)) =>
      match Trim(tag + "." + name)
      case None => None
      case Some(symbol) => Some((tag, m[symbol := value]))
  }

  function ReadLines(lines: seq<string>, tag: string, m: map<string, string>)
    : Option<(string, map<string, string>)>
  {
    if lines == [] then Some((tag, m))
    else match ReadLine(lines[0], tag, m)
      case None => None
      case Some(after) => ReadLines(lines[1..], after.0, after.1)
  }

  // ---- Reading lines one after the other ----

  lemma {:induction false} ReadConcat(a: seq<string>, b: seq<string>, tag: string, m: map<string, string>)
    ensures ReadLines(a + b, tag, m)
         == match ReadLines(a, tag, m)
            case None => None
            case Some(after) => ReadLines(b, after.0, after.1)
  {
    hide ReadLine;
    if a == [] {
      assert a + b == b;
    } else {
      assert (a + b)[1..] == a[1..] + b;
      var first := ReadLine(a[0], tag, m);
      if first.Some? {
        ReadConcat(a[1..], b, first.value.0, first.value.1);
      }
    }
  }

  lemma ReadOne(a: string, tag: string, m: map<string, string>)
    ensures ReadLines([a], tag, m) == ReadLine(a, tag, m)
  {
    hide ReadLine;
    assert [a][1..] == [];
  }

  lemma ReadSnoc(lines: seq<string>, i: nat, tag: string, m: map<string, string>)
    requires i < |lines| && ReadLines(lines[..i], tag, m).Some?
    ensures var before := ReadLines(lines[..i], tag, m).value;
      && ReadLines(lines[..i + 1], tag, m) == ReadLine(lines[i], before.0, before.1)
      && (ReadLine(lines[i], before.0, before.1) == None ==> ReadLines(lines, tag, m) == None)
  {
    hide ReadLine;
    var before := ReadLines(lines[..i], tag, m).value;
    assert lines[..i + 1] == lines[..i] + [lines[i]] && lines == lines[..i] + lines[i..];
    ReadConcat(lines[..i], [lines[i]], tag, m);
    ReadOne(lines[i], before.0, before.1);
    ReadConcat(lines[..i], lines[i..], tag, m);
  }

  // ---- What each kind of line does ----

  lemma {:induction false} NameEnds(name: string, rest: string)
    requires '=' !in name
    ensures NameLength(name + "=" + rest) == |name|
  {
    var s := name + "=" + rest;
    if name != "" {
      assert s[1..] == name[1..] + "=" + rest;
      NameEnds(name[1..], rest);
    }
  }

  lemma TrimClean(s: string)
    requires Clean(s)
    ensures Trim(s) == Some(s)
  {
    TrimIs("", s, "");
    assert "" + s + "" == s;
  }

  lemma BlankIff(c: char)
    ensures Blank(c) <==> c in " \t\r\n"
  {
  }

  /** Trimming a text that ends in byte 0xFF throws. */
  lemma OutsideThrows(s: string, c: char)
    requires c as int == 255
    ensures Trim(s + [c]) == None
  {
    assert (s + [c])[|s|] == c;
  }

  lemma BlanksJoin(a: string, b: string)
    requires AllBlank(a) && AllBlank(b)
    ensures AllBlank(a + b) && '=' !in a
  {
  }

  /** An empty line, or one that starts with ';' or '#', changes nothing. */
  lemma CommentIsSkipped(a: string, s: string, d: string, tag: string, m: map<string, string>)
    requires AllBlank(a) && AllBlank(d) && Clean(s) && (s == "" || s[0] == ';' || s[0] == '#')
    ensures ReadLine(a + s + d, tag, m) == Some((tag, m))
  {
    TrimIs(a, s, d);
    hide Trim;
  }

  /** A name in brackets is the new section. */
  lemma SectionIsRead(a: string, b: string, t: string, c: string, d: string, tag: string, m: map<string, string>)
    requires AllBlank(a) && AllBlank(b) && AllBlank(c) && AllBlank(d) && Clean(t) && b + t + c != ""
    ensures ReadLine(a + ("[" + (b + t + c) + "]") + d, tag, m) == Some((t, m))
  {
    var s := "[" + (b + t + c) + "]";
    TrimIs(a, s, d);
    TrimIs(b, t, c);
    assert s[1..|s| - 1] == b + t + c;
    hide Trim;
  }

  /** The key of an entry: the section, a dot and the name. */
  lemma SymbolIs(tag: string, name: string, b: string)
    requires Clean(tag) && Clean(name) && name != "" && AllBlank(b)
    ensures Trim(tag + "." + (name + b)) == Some(tag + "." + name)
  {
    var key := tag + "." + name;
    TrimIs("", key, b);
    assert "" + key + b == tag + "." + (name + b);
  }

  /** A line without '=' enters its name with an empty value. */
  lemma NameIsRead(a: string, name: string, d: string, tag: string, m: map<string, string>)
    requires AllBlank(a) && AllBlank(d) && Clean(name) && Clean(tag)
    requires name != "" && name[0] != ';' && name[0] != '#' && '=' !in name
    requires !(|name| >= 3 && name[0] == '[' && name[|name| - 1] == ']')
    ensures ReadLine(a + name + d, tag, m) == Some((tag, m[tag + "." + name := ""]))
  {
    TrimIs(a, name, d);
    SymbolIs(tag, name, "");
    assert name + "" == name;
    hide Trim;
    if NameLength(name) < |name| {
      assert false;
    }
  }

  lemma TrimmedEntry(line: string, left: string, right: string, tag: string, key: string, value: string,
                     m: map<string, string>)
    requires Trim(line) == Some(left + "=" + right) && '=' !in left && !Comment(left)
    requires !Bracketed(left + "=" + right)
    requires Trim(tag + "." + left) == Some(key) && Trim(right) == Some(value)
    ensures ReadLine(line, tag, m) == Some((tag, m[key := value]))
  {
    hide Trim;
    var s := left + "=" + right;
    NameEnds(left, right);
    assert s[..|left|] == left && s[|left| + 1..] == right;
  }

  lemma TrimEntry(a: string, name: string, b: string, c: string, value: string, d: string) returns (right: string)
    requires AllBlank(a) && AllBlank(c) && AllBlank(d) && Clean(name) && Clean(value) && name != ""
    ensures Trim(a + (name + b + "=" + c + value) + d) == Some(name + b + "=" + right)
    ensures Trim(right) == Some(value) && (if value == "" then right == "" else right == c + value)
  {
    hide Trim;
    right := if value == "" then "" else c + value;
    var s := name + b + "=" + right;
    if value == "" {
      TrimIs(a, s, c + d);
      TrimClean("");
      assert a + (name + b + "=" + c + value) + d == a + s + (c + d);
    } else {
      assert s[|s| - 1] == value[|value| - 1];
      TrimIs(a, s, d);
      TrimIs(c, value, "");
      assert c + value + "" == right;
      assert name + b + "=" + c + value == s;
    }
  }

  /** name = value, with blanks anywhere around the two: the first '=' separates them. */
  lemma EntryIsRead(a: string, name: string, b: string, c: string, value: string, d: string, tag: string,
                    m: map<string, string>)
    requires AllBlank(a) && AllBlank(b) && AllBlank(c) && AllBlank(d)
    requires Clean(name) && Clean(value) && Clean(tag)
    requires name != "" && name[0] != ';' && name[0] != '#' && '=' !in name
    requires value == "" || !(name[0] == '[' && value[|value| - 1] == ']')
    ensures ReadLine(a + (name + b + "=" + c + value) + d, tag, m) == Some((tag, m[tag + "." + name := value]))
  {
    var right := TrimEntry(a, name, b, c, value, d);
    var s := name + b + "=" + right;
    assert s[|s| - 1] == if value == "" then '=' else value[|value| - 1];
    BlanksJoin(b, b);
    SymbolIs(tag, name, b);
    hide ReadLine, Trim, Clean;
    TrimmedEntry(a + (name + b + "=" + c + value) + d, name + b, right, tag, tag + "." + name, value, m);
  }

  /** The key that an entry's line sets, once it can be trimmed. */
  function KeyOf(line: string, tag: string): Option<string> {
    match Trim(line)
    case None => None
    case Some(s) => if Comment(s) || Bracketed(s) then None else Trim(tag + "." + s[..NameLength(s)])
  }

  lemma OnlyEntriesHaveKeys(line: string, tag: string, s: string)
    requires Trim(line) == Some(s)
    requires s == "" || s[0] == ';' || s[0] == '#' || (|s| >= 3 && s[0] == '[' && s[|s| - 1] == ']')
    ensures KeyOf(line, tag) == None
  {
  }

  /**
   * What a line may leave of the map when reading it throws: the map as it was, or
   * with the line's key entered and no value yet, since C++14 does not order the two
   * sides of an assignment.
   */
  predicate LeftBy(line: string, tag: string, before: map<string, string>, after: map<string, string>) {
    || after == before
    || (var k := KeyOf(line, tag); k.Some? && k.value !in before && after == before[k.value := ""])
  }

  /** The map that an exception leaves: what the lines before the throwing one made of it. */
  ghost predicate ThrownAt(lines: seq<string>, n: nat, m: map<string, string>, after: map<string, string>) {
    && n < |lines|
    && var before := ReadLines(lines[..n], "", m);
    && before.Some? && ReadLine(lines[n], before.value.0, before.value.1) == None
    && LeftBy(lines[n], before.value.0, before.value.1, after)
  }

  /** The map after reading a text over it. */
  function Read(text: string, m: map<string, string>): Option<map<string, string>> {
    match ReadLines(Tokens(text, "\n"), "", m)
    case None => None
    case Some(after) => Some(after.1)
  }

  // ---- Writing ----

  /** Every key has the two parts that the writer takes from it without looking. */
  predicate Writable(m: map<string, string>) {
    forall k | k in m :: |Tokens(k, ".")| >= 2
  }

  /** One order in which the keys of m can be visited. */
  predicate Visits(keys: seq<string>, m: map<string, string>) {
    && (forall i, j | 0 <= i < j < |keys| :: keys[i] != keys[j])
    && (forall k | k in keys :: k in m) && (forall k | k in m :: k in keys)
  }

  function EntryText(k: string, v: string, tag: string): string
    requires |Tokens(k, ".")| >= 2
  {
    var kv := Tokens(k, ".");
    (if tag != kv[0] then SectionText(kv[0]) else "") + (kv[1] + "=" + v + "\r\n")
  }

  function SectionText(tag: string): string {
    "\r\n" + ("[" + tag + "]" + "\r\n")
  }

  /** The text of the entries of m in the order of keys, after a section. */
  function BodyText(keys: seq<string>, m: map<string, string>, tag: string): string
    requires Writable(m) && forall k | k in keys :: k in m
  {
    if keys == [] then ""
    else EntryText(keys[0], m[keys[0]], tag) + BodyText(keys[1..], m, Tokens(keys[0], ".")[0])
  }

  function Ended(s: string): string { if s == "" then "" else s + "\r\n" }

  function Written(keys: seq<string>, m: map<string, string>, header: string, footer: string): string
    requires Writable(m) && forall k | k in keys :: k in m
  {
    Ended(header) + BodyText(keys, m, "") + "\r\n" + Ended(footer)
  }

  /** The text opens with the header and closes with the footer, each on a line of its own. */
  lemma HeaderAndFooter(keys: seq<string>, m: map<string, string>, header: string, footer: string)
    requires Writable(m) && forall k | k in keys :: k in m
    ensures header != "" ==> header + "\r\n" <= Written(keys, m, header, footer)
    ensures footer != "" ==>
      var text, last := Written(keys, m, header, footer), "\r\n" + footer + "\r\n";
      |last| <= |text| && text[|text| - |last|..] == last
  {
    hide BodyText;
    var body, text := BodyText(keys, m, ""), Written(keys, m, header, footer);
    assert text == Ended(header) + body + "\r\n" + Ended(footer);
    hide Written, Writable;
    var rest, last := body + ("\r\n" + Ended(footer)), "\r\n" + Ended(footer);
    assert text == Ended(header) + rest && text == (Ended(header) + body) + last;
    if footer != "" {
      assert last == "\r\n" + footer + "\r\n";
      assert text[|text| - |last|..] == last;
    }
  }
}

module Ini {
  import opened IniText
  import opened Wrappers

  /** trim with its default blanks: from the back, then from the front. */
  method TrimText(text: string) returns (r: Option<string>)
    ensures r == Trim(text)
  {
    var s := text;
    while s != ""
      invariant TrimBack(s) == TrimBack(text)
      decreases |s|
    {
      if s[|s| - 1] == OUTSIDE {
        return None;
      }
      if !Blank(s[|s| - 1]) {
        break;
      }
      s := s[..|s| - 1];
    }
    while s != ""
      invariant Trim(text) == TrimFront(s)
      decreases |s|
    {
      if s[0] == OUTSIDE {
        return None;
      }
      if !Blank(s[0]) {
        break;
      }
      s := s[1..];
    }
    return Some(s);
  }

  /** mINI_basic::tokenize: the last token is under construction, and may still be empty. */
  method Tokenize(self: string, chars: string) returns (tokens: seq<string>)
    ensures tokens == Tokens(self, chars)
  {
    hide Tokens;
    tokens := [""];
    var i := 0;
    assert "" + self[0..] == self;
    assert tokens[..|tokens| - 1] == [];
    while i < |self|
      invariant i <= |self| && tokens != [] && Free(tokens[|tokens| - 1], chars)
      invariant forall k | 0 <= k < |tokens| - 1 :: tokens[k] != ""
      invariant Tokens(self, chars)
             == tokens[..|tokens| - 1] + Tokens(tokens[|tokens| - 1] + self[i..], chars)
    {
      var last := tokens[|tokens| - 1];
      ghost var done := tokens[..|tokens| - 1];
      assert last + self[i..] == last + [self[i]] + self[i + 1..];
      if self[i] !in chars {
        tokens := tokens[|tokens| - 1 := last + [self[i]]];
        assert tokens[..|tokens| - 1] == done;
      } else {
        TokensCut(last, self[i], self[i + 1..], chars);
        assert "" + self[i + 1..] == self[i + 1..];
        if last != "" {
          tokens := tokens + [""];
          assert tokens[..|tokens| - 1] == done + [last];
          assert done + (Piece(last) + Tokens(self[i + 1..], chars))
              == done + [last] + Tokens(self[i + 1..], chars);
        } else {
          assert Piece(last) + Tokens(self[i + 1..], chars) == Tokens(self[i + 1..], chars);
        }
      }
      i := i + 1;
    }
    assert tokens[|tokens| - 1] + self[i..] == tokens[|tokens| - 1];
    TokensWhole(tokens[|tokens| - 1], chars);
    while tokens != [] && tokens[|tokens| - 1] == ""
      invariant Tokens(self, chars) == tokens || (tokens != [] && tokens[|tokens| - 1] == "" &&
        Tokens(self, chars) == tokens[..|tokens| - 1])
      invariant forall k | 0 <= k < |tokens| - 1 :: tokens[k] != ""
    {
      tokens := tokens[..|tokens| - 1];
    }
  }

  class MIni {
    var entries: map<string, string>

    /** One turn of parse's loop. */
    method ParseLine(line0: string, tag0: string) returns (thrown: bool, tag: string)
      modifies this
      ensures if thrown then ReadLine(line0, tag0, old(entries)) == None && LeftBy(line0, tag0, old(entries), entries)
        else ReadLine(line0, tag0, old(entries)) == Some((tag, entries))
    {
      hide Trim, NameLength;
      thrown, tag := false, tag0;
      var trimmed := TrimText(line0);
      if trimmed == None {
        return true, tag;
      }
      var line := trimmed.value;
      if line == "" || line[0] == ';' || line[0] == '#' {
        return;
      }
      if |line| >= 3 && line[0] == '[' && line[|line| - 1] == ']' {
        var inner := TrimText(line[1..|line| - 1]);
        if inner == None {
          return true, tag;
        }
        tag := inner.value;
      } else {
        var at := NameLength(line);
        assert at == |line| ==> line[..at] == line;
        var symbol := TrimText(tag + "." + line[..at]);
        if symbol == None {
          return true, tag;
        }
        var value := Some("");
        if at < |line| {
          value := TrimText(line[at + 1..]);
          if value == None {
            var keyFirst: bool := *;
            if keyFirst && symbol.value !in entries {
              entries := entries[symbol.value := ""];
            }
            return true, tag;
          }
        }
        entries := entries[symbol.value := value.value];
      }
    }

    /** Reads a text into the map, over what it holds; a byte that trim cannot look up ends it with an exception. */
    method Parse(text: string) returns (thrown: bool)
      modifies this
      ensures !thrown ==> Read(text, old(entries)) == Some(entries)
      ensures thrown ==> Read(text, old(entries)) == None
      ensures thrown ==> exists n: nat :: ThrownAt(Tokens(text, "\n"), n, old(entries), entries)
    {
      hide ReadLine, LeftBy;
      var lines := Tokenize(text, "\n");
      var tag := "";
      var i := 0;
      assert lines[..0] == [];
      while i < |lines|
        invariant i <= |lines| && ReadLines(lines[..i], "", old(entries)) == Some((tag, entries))
      {
        ReadSnoc(lines, i, "", old(entries));
        thrown, tag := ParseLine(lines[i], tag);
        if thrown {
          assert ThrownAt(lines, i, old(entries), entries);
          return;
        }
        i := i + 1;
      }
      assert lines[..i] == lines;
      return false;
    }

    /** Writes the map out, its keys in the order that iteration gives. */
    method Dump(keys: seq<string>, header: string, footer: string) returns (output: string)
      requires Writable(entries) && Visits(keys, entries)
      ensures output == Written(keys, entries, header, footer)
    {
      hide Tokens, EntryText, Visits;
      output := header + (if header == "" then "" else "\r\n");
      ghost var head := output;
      var tag := "";
      var i := 0;
      assert keys[0..] == keys;
      assert forall k | k in keys :: k in entries by { VisitsOnly(keys, entries); }
      while i < |keys|
        invariant i <= |keys| && (forall k | k in keys :: k in entries)
        invariant output + BodyText(keys[i..], entries, tag) == head + BodyText(keys, entries, "")
      {
        var line;
        line, tag := DumpEntry(keys[i], tag);
        assert keys[i..][1..] == keys[i + 1..];
        assert output + (line + BodyText(keys[i + 1..], entries, tag))
            == output + line + BodyText(keys[i + 1..], entries, tag);
        output := output + line;
        i := i + 1;
      }
      assert output == head + BodyText(keys, entries, "");
      output := output + "\r\n" + footer + (if footer == "" then "" else "\r\n");
    }

    /** One turn of dump's loop: a section line when the section changes, and the entry. */
    method DumpEntry(key: string, tag0: string) returns (output: string, tag: string)
      requires key in entries && |Tokens(key, ".")| >= 2
      ensures output == EntryText(key, entries[key], tag0) && tag == Tokens(key, ".")[0]
    {
      hide Tokens;
      var kv := Tokenize(key, ".");
      output, tag := "", tag0;
      if tag != kv[0] {
        tag := kv[0];
        output := output + "\r\n[" + tag + "]\r\n";
        assert output == SectionText(tag);
      }
      output := output + kv[1] + "=" + entries[key] + "\r\n";
    }
  }

  lemma VisitsOnly(keys: seq<string>, m: map<string, string>)
    requires Visits(keys, m)
    ensures forall k | k in keys :: k in m
  {
  }
}

// What is written can be read back exactly when every entry is storable.
module IniRoundTrip {
  import opened IniText
  import opened Wrappers

  predicate KeyOk(k: string) {
    var kv := Tokens(k, ".");
    && |kv| >= 2 && k == kv[0] + "." + kv[1] && '\n' !in k
    && Clean(kv[0]) && Clean(kv[1])
    && '=' !in kv[1] && !Comment(kv[1])
  }

  predicate ValueOk(v: string) {
    Clean(v) && '\n' !in v
  }

  /** What a caller can check of an entry before writing it. */
  predicate Storable(k: string, v: string) {
    KeyOk(k) && ValueOk(v) && !Bracketed(Tokens(k, ".")[1] + "=" + v)
  }

  /** Two parts are enough for the writer. */
  lemma TwoPartsAreWritable(m: map<string, string>)
    requires forall k | k in m :: |Tokens(k, ".")| == 2
    ensures Writable(m)
  {
  }

  /** A header or footer that the reader skips: empty, or one comment line. */
  predicate Remark(s: string) {
    s == "" || ((s[0] == ';' || s[0] == '#') && Clean(s) && '\n' !in s)
  }

  const HEADER := "; auto-generated by mINI class {"
  const FOOTER := "; } ---"

  /** dump's default header and footer are remarks. */
  lemma DefaultsAreRemarks()
    ensures Remark(HEADER) && Remark(FOOTER)
  {
  }

  // ---- The lines of a written text ----

  function EntryLine(k: string, v: string): string
    requires |Tokens(k, ".")| >= 2
  {
    Tokens(k, ".")[1] + "=" + v + "\r"
  }

  function EntryLines(k: string, v: string, tag: string): seq<string>
    requires |Tokens(k, ".")| >= 2
  {
    var kv := Tokens(k, ".");
    (if tag != kv[0] then ["\r", "[" + kv[0] + "]" + "\r"] else []) + [EntryLine(k, v)]
  }

  function BodyLines(keys: seq<string>, m: map<string, string>, tag: string): seq<string>
    requires Writable(m) && forall k | k in keys :: k in m
  {
    if keys == [] then []
    else EntryLines(keys[0], m[keys[0]], tag) + BodyLines(keys[1..], m, Tokens(keys[0], ".")[0])
  }

  lemma PartsAreFree(k: string)
    requires |Tokens(k, ".")| >= 2
    ensures forall i | 0 <= i < 2 :: Tokens(k, ".")[i] != "" && Free(Tokens(k, ".")[i], ".")
    ensures '\n' !in k ==> forall i | 0 <= i < 2 :: '\n' !in Tokens(k, ".")[i]
  {
    TokensAreFree(k, ".");
    assert Tokens(k, ".")[0] in Tokens(k, ".") && Tokens(k, ".")[1] in Tokens(k, ".");
  }

  /** A whole line in front of a text; its carriage return stays with it. */
  lemma LineCut(line: string, rest: string)
    requires '\n' !in line
    ensures Tokens(line + "\r\n" + rest, "\n") == [line + "\r"] + Tokens(rest, "\n")
  {
    TokensCut(line + "\r", '\n', rest, "\n");
    assert line + "\r\n" + rest == line + "\r" + ['\n'] + rest;
  }

  lemma PlainCut(line: string, rest: string)
    requires '\n' !in line
    ensures Tokens("" + (line + "\r\n") + rest, "\n") == [line + "\r"] + Tokens(rest, "\n")
  {
    LineCut(line, rest);
    assert "" + (line + "\r\n") == line + "\r\n";
  }

  lemma Regrouped(s: string, end: string, line: string, rest: string)
    ensures end + (s + end) + (line + end) + rest == "" + end + (s + end + (line + end + rest))
  {
  }

  lemma SectionCut(section: string, line: string, rest: string)
    requires '\n' !in section && '\n' !in line
    ensures Tokens("\r\n" + (section + "\r\n") + (line + "\r\n") + rest, "\n")
         == ["" + "\r", section + "\r", line + "\r"] + Tokens(rest, "\n")
  {
    hide Tokens;
    var end := "\r\n";
    Regrouped(section, end, line, rest);
    LineCut(line, rest);
    LineCut(section, line + end + rest);
    LineCut("", section + end + (line + end + rest));
  }

  lemma LinesAreFree(k: string, v: string)
    requires |Tokens(k, ".")| >= 2 && '\n' !in k && '\n' !in v
    ensures var kv := Tokens(k, ".");
      '\n' !in kv[1] + "=" + v && '\n' !in "[" + kv[0] + "]" && "" + "\r" == "\r"
  {
    PartsAreFree(k);
  }

  lemma EntryCut(k: string, v: string, tag: string, rest: string)
    requires |Tokens(k, ".")| >= 2 && '\n' !in k && '\n' !in v
    ensures Tokens(EntryText(k, v, tag) + rest, "\n") == EntryLines(k, v, tag) + Tokens(rest, "\n")
  {
    LinesAreFree(k, v);
    hide Tokens;
    var kv := Tokens(k, ".");
    if tag != kv[0] {
      SectionCut("[" + kv[0] + "]", kv[1] + "=" + v, rest);
      assert EntryLines(k, v, tag) == ["" + "\r", "[" + kv[0] + "]" + "\r", kv[1] + "=" + v + "\r"];
    } else {
      PlainCut(kv[1] + "=" + v, rest);
      assert EntryLines(k, v, tag) == [kv[1] + "=" + v + "\r"];
    }
  }

  lemma {:induction false} BodyCut(keys: seq<string>, m: map<string, string>, tag: string, rest: string)
    requires Writable(m) && forall k | k in keys :: k in m && '\n' !in k && '\n' !in m[k]
    ensures Tokens(BodyText(keys, m, tag) + rest, "\n") == BodyLines(keys, m, tag) + Tokens(rest, "\n")
  {
    hide Tokens, EntryText, EntryLines;
    if keys == [] {
      assert BodyText(keys, m, tag) + rest == rest;
    } else {
      var next := Tokens(keys[0], ".")[0];
      BodyCut(keys[1..], m, next, rest);
      EntryCut(keys[0], m[keys[0]], tag, BodyText(keys[1..], m, next) + rest);
      assert BodyText(keys, m, tag) + rest
          == EntryText(keys[0], m[keys[0]], tag) + (BodyText(keys[1..], m, next) + rest);
    }
  }

  function RemarkLines(s: string): seq<string> { if s == "" then [] else [s + "\r"] }

  lemma RemarkCut(s: string, rest: string)
    requires Remark(s)
    ensures Tokens(Ended(s) + rest, "\n") == RemarkLines(s) + Tokens(rest, "\n")
  {
    hide Tokens;
    if s == "" {
      assert Ended(s) + rest == rest;
    } else {
      LineCut(s, rest);
    }
  }

  lemma WrittenLines(keys: seq<string>, m: map<string, string>, header: string, footer: string)
    requires Writable(m) && Remark(header) && Remark(footer)
    requires forall k | k in keys :: k in m && '\n' !in k && '\n' !in m[k]
    ensures Tokens(Written(keys, m, header, footer), "\n")
         == RemarkLines(header) + (BodyLines(keys, m, "") + (["\r"] + RemarkLines(footer)))
  {
    hide *;
    var body, last := BodyText(keys, m, ""), "" + "\r\n" + Ended(footer);
    EndCut(footer);
    BodyCut(keys, m, "", last);
    RemarkCut(header, body + last);
    assert Written(keys, m, header, footer) == Ended(header) + (body + last) by {
      WrittenParts(keys, m, header, footer);
    }
  }

  lemma EndCut(footer: string)
    requires Remark(footer)
    ensures Tokens("" + "\r\n" + Ended(footer), "\n") == ["\r"] + RemarkLines(footer)
  {
    RemarkCut(footer, "");
    assert Tokens("", "\n") == [];
    hide Tokens;
    assert Ended(footer) + "" == Ended(footer) && "" + "\r" == "\r";
    LineCut("", Ended(footer));
  }

  lemma WrittenParts(keys: seq<string>, m: map<string, string>, header: string, footer: string)
    requires Writable(m) && forall k | k in keys :: k in m
    ensures Written(keys, m, header, footer)
         == Ended(header) + (BodyText(keys, m, "") + ("" + "\r\n" + Ended(footer)))
  {
    hide BodyText, Ended;
    FourParts(Ended(header), BodyText(keys, m, ""), "\r\n", Ended(footer));
  }

  lemma FourParts(a: string, b: string, c: string, d: string)
    ensures a + b + c + d == a + (b + ("" + c + d))
  {
  }

  lemma {:induction false} ReadIgnored(lines: seq<string>, tag: string, m: map<string, string>)
    requires forall l | l in lines :: Classify(l) == Some(Ignored)
    ensures ReadLines(lines, tag, m) == Some((tag, m))
  {
    hide Classify;
    if lines != [] {
      assert lines[0] in lines;
      ReadIgnored(lines[1..], tag, m);
    }
  }

  /** A clean line behind which only the carriage return is cut off. */
  lemma ClassifyClean(s: string)
    requires Clean(s)
    ensures Classify(s + "\r") == Meaning(s)
  {
    TrimIs("", s, "\r");
    assert "" + s + "\r" == s + "\r";
  }

  lemma RemarksIgnored(s: string)
    requires Remark(s)
    ensures forall l | l in RemarkLines(s) :: Classify(l) == Some(Ignored)
    ensures Classify("\r") == Some(Ignored)
  {
    ClassifyClean(s);
    ClassifyClean("");
    assert "" + "\r" == "\r";
  }

  /** The whole text read back: the remarks drop out and leave the entries. */
  lemma ReadWritten(keys: seq<string>, m: map<string, string>, header: string, footer: string)
    requires Writable(m) && Remark(header) && Remark(footer)
    requires forall k | k in keys :: k in m && '\n' !in k && '\n' !in m[k]
    ensures Read(Written(keys, m, header, footer), map[])
         == match ReadLines(BodyLines(keys, m, ""), "", map[])
            case None => None
            case Some(after) => Some(after.1)
  {
    WrittenLines(keys, m, header, footer);
    RemarksIgnored(header);
    RemarksIgnored(footer);
    hide Remark, BodyLines, Classify, Written;
    var last := ["\r"] + RemarkLines(footer);
    ReadConcat(RemarkLines(header), BodyLines(keys, m, "") + last, "", map[]);
    ReadIgnored(RemarkLines(header), "", map[]);
    ReadConcat(BodyLines(keys, m, ""), last, "", map[]);
    var body := ReadLines(BodyLines(keys, m, ""), "", map[]);
    if body.Some? {
      ReadIgnored(last, body.value.0, body.value.1);
    }
  }

  // ---- Storable entries come back ----

  /** A clean name and value on one line are read as that entry, unless they look like a section. */
  lemma EntryMeaning(name: string, value: string)
    requires Clean(name) && Clean(value) && '=' !in name && !Comment(name)
    ensures Classify(name + "=" + value + "\r") == Meaning(name + "=" + value)
    ensures !Bracketed(name + "=" + value) ==> Meaning(name + "=" + value) == Some(Entry(name, value))
  {
    var s := name + "=" + value;
    assert s[|s| - 1] == if value == "" then '=' else value[|value| - 1];
    ClassifyClean(s);
    NameEnds(name, value);
    TrimIs("", value, "");
    assert "" + value + "" == value && s[|name| + 1..] == value && s[..|name|] == name;
  }

  lemma SectionMeaning(tag: string)
    requires tag != "" 
    ensures Classify("[" + tag + "]" + "\r")
         == match Trim(tag) case None => None case Some(t) => Some(Section(t))
  {
    var s := "[" + tag + "]";
    ClassifyClean(s);
    assert s[1..|s| - 1] == tag;
  }

  lemma ReadThree(a: string, b: string, c: string, tag: string, next: string, m: map<string, string>)
    requires ReadLine(a, tag, m) == Some((tag, m)) && ReadLine(b, tag, m) == Some((next, m))
    ensures ReadLines([a, b] + [c], tag, m) == ReadLine(c, next, m)
  {
    hide ReadLine;
    ReadOne(c, next, m);
    assert ([a, b] + [c])[1..] == [b, c] && [b, c][1..] == [c];
  }

  /** The line of a storable entry, read under its section, puts it into the map. */
  lemma StorableLineReads(k: string, v: string, m: map<string, string>)
    requires Storable(k, v)
    ensures var tag := Tokens(k, ".")[0]; ReadLine(EntryLine(k, v), tag, m) == Some((tag, m[k := v]))
  {
    var kv := Tokens(k, ".");
    PartsAreFree(k);
    hide Tokens;
    EntryMeaning(kv[1], v);
    TrimClean(k);
  }

  lemma SectionLinesRead(t: string, tag: string, m: map<string, string>)
    requires t != ""
    ensures ReadLine("\r", tag, m) == Some((tag, m))
    ensures ReadLine("[" + t + "]" + "\r", tag, m)
         == match Trim(t) case None => None case Some(u) => Some((u, m))
  {
    SectionMeaning(t);
    ClassifyClean("");
    assert "" + "\r" == "\r";
    hide Classify, Trim;
  }

  /** The lines of a storable entry put it into the map, and leave its section in force. */
  lemma StorableReads(k: string, v: string, tag: string, m: map<string, string>)
    requires Storable(k, v)
    ensures ReadLines(EntryLines(k, v, tag), tag, m) == Some((Tokens(k, ".")[0], m[k := v]))
  {
    var kv := Tokens(k, ".");
    PartsAreFree(k);
    StorableLineReads(k, v, m);
    SectionLinesRead(kv[0], tag, m);
    TrimClean(kv[0]);
    hide Tokens, Storable, EntryLine, ReadLine;
    if tag != kv[0] {
      ReadThree("\r", "[" + kv[0] + "]" + "\r", EntryLine(k, v), tag, kv[0], m);
    } else {
      ReadOne(EntryLine(k, v), tag, m);
      assert EntryLines(k, v, tag) == [EntryLine(k, v)];
    }
  }

  /** m with the entries of keys taken over into acc, one after the other. */
  function Stored(keys: seq<string>, m: map<string, string>, acc: map<string, string>): map<string, string>
    requires forall k | k in keys :: k in m
  {
    if keys == [] then acc else Stored(keys[1..], m, acc[keys[0] := m[keys[0]]])
  }

  lemma {:induction false} StoredIs(keys: seq<string>, m: map<string, string>, acc: map<string, string>)
    requires forall k | k in keys :: k in m
    ensures forall k :: k in Stored(keys, m, acc) <==> k in keys || k in acc
    ensures forall k | k in keys :: Stored(keys, m, acc)[k] == m[k]
    ensures forall k | k in acc && k !in keys :: Stored(keys, m, acc)[k] == acc[k]
  {
    if keys != [] {
      StoredIs(keys[1..], m, acc[keys[0] := m[keys[0]]]);
    }
  }

  lemma {:induction false} BodyReads(keys: seq<string>, m: map<string, string>, tag: string, acc: map<string, string>)
    requires Writable(m) && forall k | k in keys :: k in m && Storable(k, m[k])
    ensures var after := ReadLines(BodyLines(keys, m, tag), tag, acc);
      after.Some? && after.value.1 == Stored(keys, m, acc)
  {
    hide Storable, EntryLines, Tokens, ReadLine;
    if keys != [] {
      var k := keys[0];
      var next := Tokens(k, ".")[0];
      assert k in keys;
      StorableReads(k, m[k], tag, acc);
      ReadConcat(EntryLines(k, m[k], tag), BodyLines(keys[1..], m, next), tag, acc);
      BodyReads(keys[1..], m, next, acc[k := m[k]]);
    }
  }

  lemma VisitsAll(keys: seq<string>, m: map<string, string>)
    requires Visits(keys, m)
    ensures forall k :: k in keys <==> k in m
  {
  }

  lemma StoredAll(keys: seq<string>, m: map<string, string>)
    requires Visits(keys, m)
    ensures Stored(keys, m, map[]) == m
  {
    StoredIs(keys, m, map[]);
  }

  lemma StorableKeys(keys: seq<string>, m: map<string, string>)
    requires Visits(keys, m) && forall k | k in m :: Storable(k, m[k])
    ensures forall k | k in keys :: k in m && '\n' !in k && '\n' !in m[k]
    ensures forall k | k in keys :: k in m && Storable(k, m[k])
  {
  }

  lemma StorableComesBack(keys: seq<string>, m: map<string, string>, header: string, footer: string)
    requires Writable(m) && Visits(keys, m) && Remark(header) && Remark(footer)
    requires forall k | k in m :: Storable(k, m[k])
    ensures Read(Written(keys, m, header, footer), map[]) == Some(m)
  {
    StorableKeys(keys, m);
    hide *;
    ReadWritten(keys, m, header, footer);
    BodyReads(keys, m, "", map[]);
    StoredAll(keys, m);
  }

  // ---- Only storable entries come back ----

  /** What reading makes sure of, whatever the text. */
  predicate LineSized(m: map<string, string>) {
    forall k | k in m :: '\n' !in k && ValueOk(m[k])
  }

  lemma TrimInside(s: string)
    requires Trim(s).Some?
    ensures Clean(Trim(s).value) && forall c | c in Trim(s).value :: c in s
  {
    var a, b := TrimCuts(s);
  }

  lemma TrimFree(s: string, delims: string)
    requires Trim(s).Some? && Free(s, delims)
    ensures Free(Trim(s).value, delims)
  {
    var a, b := TrimCuts(s);
    var r := Trim(s).value;
    assert forall i | 0 <= i < |r| :: r[i] == s[|a| + i];
  }

  lemma LineInside(line: string)
    requires '\n' !in line && Classify(line).Some?
    ensures match Classify(line).value
      case Ignored => true
      case Section(tag) => '\n' !in tag && Clean(tag)
      case Entry(name, value) => '\n' !in name && ValueOk(value)
  {
    TrimInside(line);
    var s := Trim(line).value;
    assert '\n' !in s;
    if Comment(s) {
    } else if Bracketed(s) {
      TrimInside(s[1..|s| - 1]);
    } else if NameLength(s) < |s| {
      TrimInside(s[NameLength(s) + 1..]);
    }
  }

  lemma ReadLineSized(line: string, tag: string, m: map<string, string>)
    requires LineSized(m) && '\n' !in tag && '\n' !in line && ReadLine(line, tag, m).Some?
    ensures LineSized(ReadLine(line, tag, m).value.1) && '\n' !in ReadLine(line, tag, m).value.0
  {
    LineInside(line);
    hide Classify;
    if Classify(line).value.Entry? {
      TrimInside(tag + "." + Classify(line).value.name);
    }
  }

  lemma {:induction false} ReadLinesSized(lines: seq<string>, tag: string, m: map<string, string>)
    requires LineSized(m) && '\n' !in tag && (forall l | l in lines :: '\n' !in l)
    requires ReadLines(lines, tag, m).Some?
    ensures LineSized(ReadLines(lines, tag, m).value.1)
  {
    hide ReadLine, LineSized;
    if lines != [] {
      assert lines[0] in lines;
      ReadLineSized(lines[0], tag, m);
      var after := ReadLine(lines[0], tag, m).value;
      ReadLinesSized(lines[1..], after.0, after.1);
    }
  }

  lemma ReadSized(text: string)
    requires Read(text, map[]).Some?
    ensures LineSized(Read(text, map[]).value)
  {
    TokensAreFree(text, "\n");
    hide Tokens;
    ReadLinesSized(Tokens(text, "\n"), "", map[]);
  }

  // Each line gives at most one key, so no entry may be lost to a comment or a section.

  predicate IsEntry(line: string) {
    Classify(line).Some? && Classify(line).value.Entry?
  }

  function EntryCount(lines: seq<string>): nat {
    if lines == [] then 0 else (if IsEntry(lines[0]) then 1 else 0) + EntryCount(lines[1..])
  }

  lemma {:induction false} CountConcat(a: seq<string>, b: seq<string>)
    ensures EntryCount(a + b) == EntryCount(a) + EntryCount(b)
  {
    hide IsEntry;
    if a == [] {
      assert a + b == b;
    } else {
      assert (a + b)[1..] == a[1..] + b;
      CountConcat(a[1..], b);
    }
  }

  lemma {:induction false} ReadCount(lines: seq<string>, tag: string, m: map<string, string>)
    requires ReadLines(lines, tag, m).Some?
    ensures |ReadLines(lines, tag, m).value.1| <= |m| + EntryCount(lines)
  {
    if lines != [] {
      var after := ReadLine(lines[0], tag, m).value;
      assert |after.1| <= |m| + (if IsEntry(lines[0]) then 1 else 0);
      hide ReadLine, IsEntry;
      ReadCount(lines[1..], after.0, after.1);
    }
  }

  lemma LineCount(k: string, v: string, tag: string)
    requires |Tokens(k, ".")| >= 2
    ensures EntryCount(EntryLines(k, v, tag)) == if IsEntry(EntryLine(k, v)) then 1 else 0
  {
    PartsAreFree(k);
    var t := Tokens(k, ".")[0];
    SectionMeaning(t);
    ClassifyClean("");
    assert "" + "\r" == "\r";
    var open := "[" + t + "]" + "\r";
    assert !IsEntry(open) && !IsEntry("\r");
    hide IsEntry, Tokens, EntryLine;
    var line := EntryLine(k, v);
    CountOne(line);
    if tag != t {
      CountOne("\r");
      CountOne(open);
      CountConcat(["\r"], [open]);
      assert ["\r", open] == ["\r"] + [open];
      CountConcat(["\r", open], [line]);
    } else {
      assert EntryLines(k, v, tag) == [line];
    }
  }

  lemma CountOne(line: string)
    ensures EntryCount([line]) == if IsEntry(line) then 1 else 0
  {
    hide IsEntry;
    assert [line][1..] == [];
  }

  predicate AllEntries(keys: seq<string>, m: map<string, string>)
    requires Writable(m) && forall k | k in keys :: k in m
  {
    forall k | k in keys :: IsEntry(EntryLine(k, m[k]))
  }

  lemma {:induction false} BodyCount(keys: seq<string>, m: map<string, string>, tag: string)
    requires Writable(m) && forall k | k in keys :: k in m
    ensures EntryCount(BodyLines(keys, m, tag)) <= |keys|
    ensures EntryCount(BodyLines(keys, m, tag)) == |keys| ==> AllEntries(keys, m)
  {
    hide IsEntry, EntryLine, EntryLines, Tokens;
    if keys != [] {
      var k := keys[0];
      var next := Tokens(k, ".")[0];
      LineCount(k, m[k], tag);
      CountConcat(EntryLines(k, m[k], tag), BodyLines(keys[1..], m, next));
      BodyCount(keys[1..], m, next);
    }
  }

  lemma {:induction false} VisitsCount(keys: seq<string>, m: map<string, string>)
    requires Visits(keys, m)
    ensures |keys| == |m|
  {
    if keys == [] {
      assert m == map[];
    } else {
      var rest := m - {keys[0]};
      assert m == rest[keys[0] := m[keys[0]]];
      VisitsCount(keys[1..], rest);
    }
  }

  // Every key that is read has its section and its name in the form that is written.

  predicate Shape(symbol: string, tag: string, name: string) {
    && symbol == tag + "." + name
    && Clean(tag) && Free(tag, ".")
    && Clean(name) && Free(name, ".") && '=' !in name
    && (name == "" || !Comment(name))
  }

  ghost predicate Shaped(symbol: string) {
    exists tag, name :: Shape(symbol, tag, name)
  }

  lemma {:induction false} NameIsFirst(s: string, n: nat)
    requires n < |s| && s[n] == '='
    ensures NameLength(s) <= n
  {
    if n > 0 && s[0] != '=' {
      NameIsFirst(s[1..], n - 1);
    }
  }

  /** Trim takes a piece out of the text that has every non-blank character in it. */
  lemma TrimKeeps(s: string, i: nat) returns (from: nat)
    requires Trim(s).Some? && i < |s| && !Blank(s[i])
    ensures var r := Trim(s).value;
      from <= i < from + |r| <= |s| && r == s[from..from + |r|] && (!Blank(s[0]) ==> from == 0)
  {
    var a, b := TrimCuts(s);
    var r := Trim(s).value;
    hide Trim, Clean;
    from := |a|;
    assert forall j | 0 <= j < |a| :: s[j] == a[j];
    assert forall j | |a| + |r| <= j < |s| :: s[j] == b[j - |a| - |r|];
  }

  /** The name on an entry's line is a part of the name in its key. */
  lemma EntryName(k: string, v: string)
    requires |Tokens(k, ".")| >= 2 && IsEntry(EntryLine(k, v))
    ensures var name := Classify(EntryLine(k, v)).value.name;
      Free(name, ".") && '=' !in name && (name == "" || (Solid(name[0]) && !Comment(name)))
  {
    PartsAreFree(k);
    var own := Tokens(k, ".")[1];
    var line := EntryLine(k, v);
    var at := |own|;
    assert line[at] == '=' && line[..at] == own;
    var from := TrimKeeps(line, at);
    TrimInside(line);
    hide Tokens, Trim, EntryLine;
    var s := Trim(line).value;
    NameIsFirst(s, at - from);
    var n := NameLength(s);
    PieceOfName(line, own, from, s, n);
  }

  lemma PieceOfName(line: string, own: string, from: nat, s: string, n: nat)
    requires |own| <= |line| && line[..|own|] == own && Free(own, ".")
    requires from + |s| <= |line| && s == line[from..from + |s|] && n <= |s| && from + n <= |own|
    ensures Free(s[..n], ".")
  {
    forall i | 0 <= i < n
      ensures s[i] !in "."
    {
      assert s[i] == line[from + i] == own[from + i];
    }
  }

  /** Trimming a key cuts off the end of its name only. */
  lemma SymbolCut(tag: string, name: string) returns (left: string)
    requires Clean(tag) && (name == "" || Solid(name[0])) && Trim(tag + "." + name).Some?
    ensures Trim(tag + "." + name).value == tag + "." + left && left <= name && Clean(left)
  {
    var text := tag + "." + name;
    var at := |tag|;
    assert text[at] == '.' && !Blank(text[0]);
    var from := TrimKeeps(text, at);
    TrimInside(text);
    var s := Trim(text).value;
    hide Trim;
    left := name[..|s| - at - 1];
    assert s == tag + "." + left;
    assert left != "" ==> left[|left| - 1] == s[|s| - 1];
  }

  /** The key made of a clean section and such a name has its shape. */
  lemma SymbolShape(tag: string, name: string)
    requires Clean(tag) && Free(tag, ".") && Free(name, ".") && '=' !in name
    requires name == "" || (Solid(name[0]) && !Comment(name))
    requires Trim(tag + "." + name).Some?
    ensures Shaped(Trim(tag + "." + name).value)
  {
    var left := SymbolCut(tag, name);
    hide Trim, Clean;
    assert forall i | 0 <= i < |left| :: left[i] == name[i];
    assert Shape(Trim(tag + "." + name).value, tag, left);
  }

  lemma ShapedKeyOk(symbol: string)
    requires Shaped(symbol) && |Tokens(symbol, ".")| >= 2 && '\n' !in symbol
    ensures KeyOk(symbol)
  {
    var tag, name :| Shape(symbol, tag, name);
    assert symbol == tag + ['.'] + name;
    TokensCut(tag, '.', name, ".");
    TokensWhole(name, ".");
  }

  ghost predicate AllShaped(m: map<string, string>) {
    forall k | k in m :: Shaped(k)
  }

  lemma EntryLineShapes(k: string, v: string, tag: string, m: map<string, string>)
    requires |Tokens(k, ".")| >= 2 && IsEntry(EntryLine(k, v)) && AllShaped(m) && Clean(tag) && Free(tag, ".")
    requires ReadLine(EntryLine(k, v), tag, m).Some?
    ensures var after := ReadLine(EntryLine(k, v), tag, m).value; after.0 == tag && AllShaped(after.1)
  {
    EntryName(k, v);
    hide Classify, Shaped, EntryLine, Tokens, Clean, Free, Comment, Trim;
    SymbolShape(tag, Classify(EntryLine(k, v)).value.name);
  }

  /** The section in force after the lines of an entry, when they can be read. */
  lemma EntryLinesShape(k: string, v: string, tag: string, here: string, m: map<string, string>)
    requires |Tokens(k, ".")| >= 2 && IsEntry(EntryLine(k, v)) && AllShaped(m)
    requires if tag == "" then true else Trim(tag) == Some(here)
    requires ReadLines(EntryLines(k, v, tag), here, m).Some?
    ensures var after := ReadLines(EntryLines(k, v, tag), here, m).value;
      Trim(Tokens(k, ".")[0]) == Some(after.0) && AllShaped(after.1)
  {
    PartsAreFree(k);
    var t := Tokens(k, ".")[0];
    SectionLinesRead(t, here, m);
    hide Tokens, IsEntry, EntryLine, ReadLine, AllShaped;
    var line := EntryLine(k, v);
    if tag != t {
      var open := "[" + t + "]" + "\r";
      ReadConcat(["\r", open], [line], here, m);
      ReadConcat(["\r"], [open], here, m);
      assert ["\r", open] == ["\r"] + [open];
      ReadOne("\r", here, m);
      ReadOne(open, here, m);
    } else {
      assert EntryLines(k, v, tag) == [line];
    }
    TrimFree(t, ".");
    TrimInside(t);
    var now := Trim(t).value;
    hide Trim, Free, Clean;
    ReadOne(line, now, m);
    EntryLineShapes(k, v, now, m);
  }

  lemma {:induction false} BodyShapes(keys: seq<string>, m: map<string, string>, tag: string, here: string,
                                      acc: map<string, string>)
    requires Writable(m) && (forall k | k in keys :: k in m) && AllEntries(keys, m) && AllShaped(acc)
    requires if tag == "" then true else Trim(tag) == Some(here)
    requires ReadLines(BodyLines(keys, m, tag), here, acc).Some?
    ensures AllShaped(ReadLines(BodyLines(keys, m, tag), here, acc).value.1)
  {
    hide IsEntry, EntryLine, EntryLines, Tokens, ReadLine, AllShaped, Trim;
    if keys != [] {
      var k := keys[0];
      var next := Tokens(k, ".")[0];
      assert k in keys;
      ReadConcat(EntryLines(k, m[k], tag), BodyLines(keys[1..], m, next), here, acc);
      EntryLinesShape(k, m[k], tag, here, acc);
      var after := ReadLines(EntryLines(k, m[k], tag), here, acc).value;
      BodyShapes(keys[1..], m, next, after.0, after.1);
    }
  }

  lemma EntryStorable(k: string, v: string)
    requires KeyOk(k) && ValueOk(v) && IsEntry(EntryLine(k, v))
    ensures Storable(k, v)
  {
    EntryMeaning(Tokens(k, ".")[1], v);
  }

  lemma ComesBackStorable(keys: seq<string>, m: map<string, string>, header: string, footer: string)
    requires Writable(m) && Visits(keys, m) && Remark(header) && Remark(footer)
    requires Read(Written(keys, m, header, footer), map[]) == Some(m)
    ensures forall k | k in m :: Storable(k, m[k])
  {
    ReadSized(Written(keys, m, header, footer));
    VisitsAll(keys, m);
    assert forall k | k in keys :: k in m && '\n' !in k && '\n' !in m[k];
    hide Storable, Remark, BodyLines, Written, Tokens, ReadLines, EntryLine, IsEntry, Shaped, KeyOk, ValueOk, Visits;
    ReadWritten(keys, m, header, footer);
    BodyCount(keys, m, "");
    ReadCount(BodyLines(keys, m, ""), "", map[]);
    VisitsCount(keys, m);
    BodyShapes(keys, m, "", "", map[]);
    forall k | k in m
      ensures Storable(k, m[k])
    {
      ShapedKeyOk(k);
      EntryStorable(k, m[k]);
    }
  }

  /**
   * Writing a map and reading the text into an empty one gives the map back if and
   * only if every entry is storable, whatever the order of the keys.
   */
  lemma RoundTripIff(keys: seq<string>, m: map<string, string>, header: string, footer: string)
    requires Writable(m) && Visits(keys, m) && Remark(header) && Remark(footer)
    ensures Read(Written(keys, m, header, footer), map[]) == Some(m) <==> forall k | k in m :: Storable(k, m[k])
  {
    VisitsAll(keys, m);
    hide *;
    if Read(Written(keys, m, header, footer), map[]) == Some(m) {
      ComesBackStorable(keys, m, header, footer);
    }
    if forall k | k in m :: Storable(k, m[k]) {
      StorableComesBack(keys, m, header, footer);
    }
  }
}
