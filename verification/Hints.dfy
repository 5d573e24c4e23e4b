/**
 The pod annotation that says how each container's log is rendered: a lenient,
 comma-separated list of `container=format:column=type,...` entries.
 */
module Hints {
  import opened Wrappers
  import opened Text

  datatype Column = Column(key: string, kind: string)

  datatype Hint = Hint(format: string, columns: seq<Column>)

  const LOG_FORMATS: seq<string> := ["plain", "json", "ecs", "journald"]

  const COLUMN_TYPES: seq<string> :=
    ["date/rfc3339", "date/rfc3339nano", "date/epoch-ms", "epoch", "log-level", "abbreviate", "number", "string"]

  predicate IsLogFormat(s: string)
  {
    s in LOG_FORMATS
  }

  predicate IsColumnType(s: string)
  {
    s in COLUMN_TYPES
  }

  // ----- trimming and lower case

  /** The white space of JavaScript's `trim`. */
  predicate IsSpace(c: char)
  {
    || ('\t' <= c <= '\r') || c == ' ' || c == '\U{00A0}' || c == '\U{1680}' || ('\U{2000}' <= c <= '\U{200A}')
    || c == '\U{2028}' || c == '\U{2029}' || c == '\U{202F}' || c == '\U{205F}' || c == '\U{3000}' || c == '\U{FEFF}'
  }

  function Trim(s: string): (r: string)
  {
    if |s| > 0 && IsSpace(s[0]) then Trim(s[1..])
    else if |s| > 0 && IsSpace(s[|s| - 1]) then Trim(s[..|s| - 1])
    else s
  }

  predicate Trimmed(s: string)
  {
    s == "" || (!IsSpace(s[0]) && !IsSpace(s[|s| - 1]))
  }

  lemma {:induction false} TrimTrimmed(s: string)
    ensures Trimmed(s) ==> Trim(s) == s
  {
  }

  /** Lower case; only ASCII letters can become letters of a format name. */
  function Lower(s: string): (r: string)
    ensures |r| == |s|
  {
    if s == "" then "" else [if 'A' <= s[0] <= 'Z' then s[0] + ' ' else s[0]] + Lower(s[1..])
  }

  // ----- one token

  /** What a token between commas says. */
  datatype Token =
    | Blank
    | Stray
    | Entry(name: string, format: string, columns: seq<Column>, open: bool)
    | Extra(column: Column)

  function Classify(token: string): (r: Token)
  {
    var eq := IndexOf(token, '=', 0);
    if eq < 0 then if Trim(token) != "" then Stray else Blank
    else Assigned(Trim(token[..eq]), Trim(token[eq + 1..]))
  }

  function Assigned(name: string, value: string): (r: Token)
  {
    var colon := IndexOf(value, ':', 0);
    var head := Lower(Trim(if colon < 0 then value else value[..colon]));
    if colon >= 0 || IsLogFormat(head) then
      if name == "" || !IsLogFormat(head) then Stray
      else if colon < 0 then Entry(name, head, [], true)
      else
        var first := value[colon + 1..];
        var at := IndexOf(first, '=', 0);
        var kind := Trim(first[at + 1..]);
        if at > 0 && IsColumnType(kind) then Entry(name, head, [Column(Trim(first[..at]), kind)], true)
        else Entry(name, head, [], false)
    else if name != "" && IsColumnType(value) then Extra(Column(name, value))
    else Stray
  }

  // ----- the loop

  /** The hints so far, and the container that further columns go to. */
  datatype Progress = Progress(hints: map<string, Hint>, current: Option<string>)

  function Advance(p: Progress, t: Token): (r: Progress)
  {
    match t
    case Blank => p
    case Stray => p.(current := None)
    case Entry(name, format, columns, open) =>
      Progress(p.hints[name := Hint(format, columns)], if open then Some(name) else None)
    case Extra(column) =>
      if p.current.Some? && p.current.value in p.hints then
        var name := p.current.value;
        p.(hints := p.hints[name := p.hints[name].(columns := p.hints[name].columns + [column])])
      else p.(current := None)
  }

  function AdvanceAll(p: Progress, tokens: seq<string>): (r: Progress)
    decreases |tokens|
  {
    if tokens == [] then p else AdvanceAll(Advance(p, Classify(tokens[0])), tokens[1..])
  }

  const START: Progress := Progress(map[], None)

  function Parsed(annotation: string): (r: map<string, Hint>)
  {
    AdvanceAll(START, Split(annotation, ',')).hints
  }

  method ParseHints(annotation: string) returns (hints: map<string, Hint>)
    ensures hints == Parsed(annotation)
  {
    hide Split, Classify, Advance;
    var tokens := Split(annotation, ',');
    var p := START;
    var i := 0;
    assert tokens[0..] == tokens;
    while i < |tokens|
      invariant 0 <= i <= |tokens| && AdvanceAll(p, tokens[i..]) == AdvanceAll(START, tokens)
    {
      assert tokens[i..][0] == tokens[i] && tokens[i..][1..] == tokens[i + 1..];
      p := Advance(p, Classify(tokens[i]));
      i := i + 1;
    }
    assert tokens[i..] == [];
    hints := p.hints;
  }

  lemma {:induction false} AdvanceAppend(p: Progress, a: seq<string>, b: seq<string>)
    ensures AdvanceAll(p, a + b) == AdvanceAll(AdvanceAll(p, a), b)
    decreases |a|
  {
    hide Classify, Advance;
    if a == [] {
      assert a + b == b;
    } else {
      assert (a + b)[1..] == a[1..] + b && (a + b)[0] == a[0];
      AdvanceAppend(Advance(p, Classify(a[0])), a[1..], b);
    }
  }

  // ----- entries do not reach into their neighbours

  /** A token that names a container, rightly or wrongly: what went before is over. */
  predicate Opens(token: string)
  {
    var t := Classify(token);
    t.Entry? || t.Stray?
  }

  /** The same loop on top of other hints. */
  ghost predicate Over(base: map<string, Hint>, p: Progress, q: Progress)
  {
    && q.hints == base + p.hints && q.current == p.current
    && (p.current.Some? ==> p.current.value in p.hints)
  }

  lemma {:induction false} OverStep(base: map<string, Hint>, p: Progress, q: Progress, t: Token)
    requires Over(base, p, q)
    ensures Over(base, Advance(p, t), Advance(q, t))
  {
    var a, b := Advance(p, t), Advance(q, t);
    assert b.hints == base + a.hints;
  }

  lemma {:induction false} OverAll(base: map<string, Hint>, p: Progress, q: Progress, tokens: seq<string>)
    requires Over(base, p, q)
    ensures Over(base, AdvanceAll(p, tokens), AdvanceAll(q, tokens))
    decreases |tokens|
  {
    hide Classify, Advance, Over;
    if tokens != [] {
      OverStep(base, p, q, Classify(tokens[0]));
      OverAll(base, Advance(p, Classify(tokens[0])), Advance(q, Classify(tokens[0])), tokens[1..]);
    }
  }

  lemma {:induction false} OverStart(q: Progress, t: Token)
    requires t.Entry? || t.Stray?
    ensures Over(q.hints, Advance(START, t), Advance(q, t))
  {
    assert q.hints + map[] == q.hints;
  }

  /**
   Parsing `A,B`, where `B` begins with a container's entry, is parsing `A` and
   overriding it with `B`: neither changes what the other says.
   */
  lemma {:induction false} Neighbours(a: string, b: string)
    requires Opens(Split(b, ',')[0])
    ensures Parsed(a + [','] + b) == Parsed(a) + Parsed(b)
  {
    hide Split, Classify, Advance;
    SplitBetween(a, ',', b);
    var ta, tb := Split(a, ','), Split(b, ',');
    AdvanceAppend(START, ta, tb);
    var q := AdvanceAll(START, ta);
    var t := Classify(tb[0]);
    OverStart(q, t);
    OverAll(q.hints, Advance(START, t), Advance(q, t), tb[1..]);
  }

  // ----- printing

  predicate NameOk(s: string)
  {
    s != "" && Trimmed(s) && ',' !in s && '=' !in s
  }

  predicate HintOk(h: Hint)
  {
    && IsLogFormat(h.format)
    && forall k | 0 <= k < |h.columns| :: NameOk(h.columns[k].key) && IsColumnType(h.columns[k].kind)
  }

  datatype Named = Named(container: string, hint: Hint)

  function PrintColumn(c: Column): (r: string)
  {
    c.key + ['='] + c.kind
  }

  function PrintColumns(cs: seq<Column>): (r: seq<string>)
    ensures |r| == |cs|
  {
    if cs == [] then [] else [PrintColumn(cs[0])] + PrintColumns(cs[1..])
  }

  function PrintHead(n: Named): (r: string)
  {
    n.container + ['=']
    + if n.hint.columns == [] then n.hint.format else n.hint.format + [':'] + PrintColumn(n.hint.columns[0])
  }

  /** An entry as its tokens: the first column rides on the container's own. */
  function PrintEntry(n: Named): (r: seq<string>)
    ensures |r| >= 1
  {
    [PrintHead(n)] + if n.hint.columns == [] then [] else PrintColumns(n.hint.columns[1..])
  }

  function PrintAll(ns: seq<Named>): (r: seq<string>)
  {
    if ns == [] then [] else PrintEntry(ns[0]) + PrintAll(ns[1..])
  }

  function Print(ns: seq<Named>): (r: string)
  {
    Join(PrintAll(ns), ',')
  }

  /** What the list says; the last entry for a container wins. */
  function AsMap(ns: seq<Named>, base: map<string, Hint>): (r: map<string, Hint>)
    decreases |ns|
  {
    if ns == [] then base else AsMap(ns[1..], base[ns[0].container := ns[0].hint])
  }

  /** A word that separators, trimming and lower-casing leave alone. */
  predicate Word(s: string)
  {
    && s != ""
    && forall k | 0 <= k < |s| ::
         !IsSpace(s[k]) && s[k] != ',' && s[k] != '=' && s[k] != ':' && !('A' <= s[k] <= 'Z')
  }

  lemma {:induction false} FormatWord(s: string)
    requires IsLogFormat(s)
    ensures Word(s)
  {
  }

  lemma {:induction false} TypeWord(s: string)
    requires IsColumnType(s)
    ensures Word(s)
  {
  }

  /** A format name is never a column type. */
  lemma {:induction false} TypeIsNoFormat(s: string)
    requires IsColumnType(s)
    ensures !IsLogFormat(s)
  {
    forall f | f in LOG_FORMATS ensures f !in COLUMN_TYPES {
      assert f[0] != 'd' && f != "epoch" && f != "log-level" && f != "abbreviate" && f != "number" && f != "string";
    }
  }

  lemma {:induction false} WordFacts(s: string)
    requires Word(s)
    ensures Trimmed(s) && Trim(s) == s && ',' !in s && '=' !in s && ':' !in s && Lower(s) == s
  {
    LowerWord(s);
  }

  lemma {:induction false} LowerWord(s: string)
    requires forall k | 0 <= k < |s| :: !('A' <= s[k] <= 'Z')
    ensures Lower(s) == s
  {
    if s != "" {
      LowerWord(s[1..]);
    }
  }

  lemma {:induction false} CutAt(a: string, c: char, b: string)
    requires c !in a
    ensures var s := a + [c] + b; IndexOf(s, c, 0) == |a| && s[..|a|] == a && s[|a| + 1..] == b
  {
    var s := a + [c] + b;
    assert s[|a|] == c;
    assert forall k | 0 <= k < |a| :: s[k] == a[k];
  }

  lemma {:induction false} NoIndex(s: string, c: char)
    requires c !in s
    ensures IndexOf(s, c, 0) < 0
  {
  }

  lemma {:induction false} ClassifyAssigned(name: string, value: string)
    requires '=' !in name
    ensures Classify(name + ['='] + value) == Assigned(Trim(name), Trim(value))
  {
    hide Assigned, Trim;
    CutAt(name, '=', value);
  }

  /** A printed column is read as that column. */
  lemma {:induction false} ColumnRead(c: Column)
    requires NameOk(c.key) && IsColumnType(c.kind)
    ensures Classify(PrintColumn(c)) == Extra(c) && ',' !in PrintColumn(c)
  {
    hide IsColumnType, IsLogFormat, Word, Trim, Trimmed, Lower, Classify;
    TypeWord(c.kind);
    WordFacts(c.kind);
    TypeIsNoFormat(c.kind);
    TrimTrimmed(c.key);
    ClassifyAssigned(c.key, c.kind);
    NoIndex(c.kind, ':');
  }

  lemma {:induction false} BareRead(name: string, format: string)
    requires NameOk(name) && IsLogFormat(format)
    ensures Classify(name + ['='] + format) == Entry(name, format, [], true) && ',' !in name + ['='] + format
  {
    hide IsColumnType, IsLogFormat, Word, Trim, Trimmed, Lower, Classify;
    FormatWord(format);
    WordFacts(format);
    TrimTrimmed(name);
    ClassifyAssigned(name, format);
    NoIndex(format, ':');
  }

  lemma {:induction false} FullRead(name: string, format: string, c: Column)
    requires NameOk(name) && IsLogFormat(format) && NameOk(c.key) && IsColumnType(c.kind)
    ensures var token := name + ['='] + (format + [':'] + PrintColumn(c));
            Classify(token) == Entry(name, format, [c], true) && ',' !in token
  {
    hide *;
    var value := format + [':'] + PrintColumn(c);
    FormatWord(format);
    TypeWord(c.kind);
    NameTrim(name);
    ValueTrimmed(format, c);
    ClassifyAssigned(name, value);
    AssignedFull(name, format, c);
    NoCommas(name, format, c);
  }

  lemma {:induction false} NameTrim(name: string)
    requires NameOk(name)
    ensures Trim(name) == name && name != "" && '=' !in name && ',' !in name
  {
    TrimTrimmed(name);
  }

  lemma {:induction false} AssignedFull(name: string, format: string, c: Column)
    requires name != "" && IsLogFormat(format) && Word(format) && NameOk(c.key) && IsColumnType(c.kind) && Word(c.kind)
    ensures Assigned(name, format + [':'] + PrintColumn(c)) == Entry(name, format, [c], true)
  {
    hide IsColumnType, IsLogFormat, Word, Trim, Trimmed, Lower, IndexOf;
    WordFacts(format);
    WordFacts(c.kind);
    NameTrim(c.key);
    CutAt(format, ':', PrintColumn(c));
    CutAt(c.key, '=', c.kind);
  }

  lemma {:induction false} NoCommas(name: string, format: string, c: Column)
    requires NameOk(name) && Word(format) && NameOk(c.key) && Word(c.kind)
    ensures ',' !in name + ['='] + (format + [':'] + PrintColumn(c))
  {
    hide Trimmed, Trim;
    WordFacts(format);
    WordFacts(c.kind);
  }

  lemma {:induction false} ValueTrimmed(format: string, c: Column)
    requires Word(format) && Word(c.kind)
    ensures var value := format + [':'] + PrintColumn(c); Trim(value) == value
  {
    var value := format + [':'] + PrintColumn(c);
    assert value[0] == format[0] && value[|value| - 1] == c.kind[|c.kind| - 1];
    TrimTrimmed(value);
  }

  predicate Clear(tokens: seq<string>)
  {
    forall k | 0 <= k < |tokens| :: ',' !in tokens[k]
  }

  /** Further columns go to the container whose entry is open. */
  lemma {:induction false} ColumnsRead(p: Progress, cs: seq<Column>)
    requires forall k | 0 <= k < |cs| :: NameOk(cs[k].key) && IsColumnType(cs[k].kind)
    requires p.current.Some? && p.current.value in p.hints
    ensures Clear(PrintColumns(cs))
    ensures var name := p.current.value;
            AdvanceAll(p, PrintColumns(cs))
            == p.(hints := p.hints[name := p.hints[name].(columns := p.hints[name].columns + cs)])
    decreases |cs|
  {
    hide Classify, IsColumnType, NameOk, PrintColumn;
    var name := p.current.value;
    var h := p.hints[name];
    if cs == [] {
      assert h.columns + cs == h.columns;
      assert p.hints[name := h] == p.hints;
    } else {
      ColumnRead(cs[0]);
      var q := p.(hints := p.hints[name := h.(columns := h.columns + [cs[0]])]);
      assert Advance(p, Extra(cs[0])) == q;
      ColumnsRead(q, cs[1..]);
      assert h.columns + [cs[0]] + cs[1..] == h.columns + cs;
      assert q.hints[name := h.(columns := h.columns + cs)] == p.hints[name := h.(columns := h.columns + cs)];
    }
  }

  /** A printed entry is read as that hint, whatever was open before. */
  lemma {:induction false} EntryRead(p: Progress, n: Named)
    requires NameOk(n.container) && HintOk(n.hint)
    ensures Clear(PrintEntry(n))
    ensures AdvanceAll(p, PrintEntry(n)) == Progress(p.hints[n.container := n.hint], Some(n.container))
  {
    hide Classify, IsColumnType, IsLogFormat, NameOk, PrintColumn, PrintColumns;
    var cs := n.hint.columns;
    if cs == [] {
      BareRead(n.container, n.hint.format);
      OneToken(p, PrintHead(n));
      assert n.hint == Hint(n.hint.format, []);
    } else {
      FullRead(n.container, n.hint.format, cs[0]);
      var q := Progress(p.hints[n.container := Hint(n.hint.format, [cs[0]])], Some(n.container));
      OneToken(p, PrintHead(n));
      assert AdvanceAll(p, [PrintHead(n)]) == q;
      ColumnsRead(q, cs[1..]);
      AdvanceAppend(p, [PrintHead(n)], PrintColumns(cs[1..]));
      assert [cs[0]] + cs[1..] == cs;
      assert q.hints[n.container := n.hint] == p.hints[n.container := n.hint];
    }
  }

  lemma {:induction false} OneToken(p: Progress, token: string)
    ensures AdvanceAll(p, [token]) == Advance(p, Classify(token))
  {
    hide Classify, Advance;
    assert [token][1..] == [];
  }

  predicate AllOk(ns: seq<Named>)
  {
    forall k | 0 <= k < |ns| :: NameOk(ns[k].container) && HintOk(ns[k].hint)
  }

  lemma {:induction false} AllRead(p: Progress, ns: seq<Named>)
    requires AllOk(ns)
    ensures Clear(PrintAll(ns)) && AdvanceAll(p, PrintAll(ns)).hints == AsMap(ns, p.hints)
    decreases |ns|
  {
    hide Classify, Advance, NameOk, HintOk, PrintEntry;
    if ns != [] {
      EntryRead(p, ns[0]);
      var q := AdvanceAll(p, PrintEntry(ns[0]));
      AllRead(q, ns[1..]);
      AdvanceAppend(p, PrintEntry(ns[0]), PrintAll(ns[1..]));
    }
  }

  /** Parsing undoes printing. */
  lemma {:induction false} ParseUndoesPrint(ns: seq<Named>)
    requires AllOk(ns)
    ensures Parsed(Print(ns)) == AsMap(ns, map[])
  {
    hide Classify, Advance, AllOk, Split;
    AllRead(START, ns);
    var tokens := PrintAll(ns);
    if ns == [] {
      JoinOne<char>("", ',');
      SplitNone("", ',');
      OneToken(START, "");
      BlankToken();
    } else {
      SplitJoin(tokens, ',');
    }
  }

  lemma {:induction false} BlankToken()
    ensures Classify("") == Blank && forall p :: Advance(p, Blank) == p
  {
  }

  /** With distinct containers, every hint is found under its own. */
  lemma {:induction false} Looked(ns: seq<Named>, base: map<string, Hint>, k: nat)
    requires k < |ns| && forall i, j | 0 <= i < j < |ns| :: ns[i].container != ns[j].container
    ensures var m := AsMap(ns, base); ns[k].container in m && m[ns[k].container] == ns[k].hint
    decreases |ns|
  {
    if k > 0 {
      Looked(ns[1..], base[ns[0].container := ns[0].hint], k - 1);
    } else {
      Kept(ns[1..], base[ns[0].container := ns[0].hint], ns[0].container);
    }
  }

  lemma {:induction false} Kept(ns: seq<Named>, base: map<string, Hint>, name: string)
    requires name in base && forall k | 0 <= k < |ns| :: ns[k].container != name
    ensures name in AsMap(ns, base) && AsMap(ns, base)[name] == base[name]
    decreases |ns|
  {
    if ns != [] {
      Kept(ns[1..], base[ns[0].container := ns[0].hint], name);
    }
  }

  // ----- what a token means, exactly

  /** White space by its code points. */
  predicate White(c: char)
  {
    var n := c as int;
    || 9 <= n <= 13 || n == 32 || n == 0xA0 || n == 0x1680 || 0x2000 <= n <= 0x200A || n == 0x2028 || n == 0x2029
    || n == 0x202F || n == 0x205F || n == 0x3000 || n == 0xFEFF
  }

  predicate AllWhite(s: string)
  {
    forall k | 0 <= k < |s| :: White(s[k])
  }

  lemma {:induction false} SameSpace(c: char)
    ensures IsSpace(c) == White(c)
  {
  }

  /** Trimming takes white space at both ends ... */
  lemma {:induction false} TrimCuts(s: string) returns (front: string, back: string)
    ensures s == front + Trim(s) + back && AllWhite(front) && AllWhite(back)
    decreases |s|
  {
    hide IsSpace, White;
    front, back := "", "";
    if |s| > 0 && IsSpace(s[0]) {
      SameSpace(s[0]);
      front, back := TrimCuts(s[1..]);
      assert s == [s[0]] + s[1..];
      CatAssoc([s[0]], front, Trim(s));
      CatAssoc([s[0]], front + Trim(s), back);
      front := [s[0]] + front;
    } else if |s| > 0 && IsSpace(s[|s| - 1]) {
      SameSpace(s[|s| - 1]);
      front, back := TrimCuts(s[..|s| - 1]);
      assert s == s[..|s| - 1] + [s[|s| - 1]];
      CatAssoc(front + Trim(s), back, [s[|s| - 1]]);
      back := back + [s[|s| - 1]];
    }
  }

  /** ... and all of it. */
  lemma {:induction false} TrimEnds(s: string)
    ensures Trim(s) != "" ==> !White(Trim(s)[0]) && !White(Trim(s)[|Trim(s)| - 1])
    decreases |s|
  {
    hide IsSpace, White;
    if |s| > 0 {
      SameSpace(s[0]);
      SameSpace(s[|s| - 1]);
      if IsSpace(s[0]) {
        TrimEnds(s[1..]);
      } else if IsSpace(s[|s| - 1]) {
        TrimEnds(s[..|s| - 1]);
      }
    }
  }

  /** Lower case takes A to Z to a to z. */
  lemma {:induction false} LowerExactly(s: string, k: nat)
    requires k < |s|
    ensures Lower(s)[k] as int == s[k] as int + if 65 <= s[k] as int <= 90 then 32 else 0
  {
    if k > 0 {
      LowerExactly(s[1..], k - 1);
    }
  }

  /** Without an equals sign a token says nothing, and ends the columns unless it is blank. */
  lemma {:induction false} PlainToken(token: string)
    requires '=' !in token
    ensures Classify(token) == if Trim(token) == "" then Blank else Stray
  {
    NoIndex(token, '=');
  }

  lemma {:induction false} Formats(s: string)
    ensures IsLogFormat(s) <==> s in {"plain", "json", "ecs", "journald"}
  {
  }

  lemma {:induction false} Types(s: string)
    ensures IsColumnType(s) <==> s in {"date/rfc3339", "date/rfc3339nano", "date/epoch-ms", "epoch", "log-level",
                                       "abbreviate", "number", "string"}
  {
  }

  /** A format on its own is a container's entry, a column type a further column, and nothing else is either. */
  lemma {:induction false} BareToken(name: string, value: string)
    requires '=' !in name && ':' !in Trim(value)
    ensures var n, v := Trim(name), Trim(value);
            Classify(name + "=" + value)
            == if Lower(v) in {"plain", "json", "ecs", "journald"} then
                 if n == "" then Stray else Entry(n, Lower(v), [], true)
               else if n != "" && v in {"date/rfc3339", "date/rfc3339nano", "date/epoch-ms", "epoch", "log-level",
                                        "abbreviate", "number", "string"} then
                 Extra(Column(n, v))
               else Stray
  {
    hide Trim, Lower, Classify, IsLogFormat, IsColumnType;
    assert "=" == ['='];
    ClassifyAssigned(name, value);
    NoIndex(Trim(value), ':');
    TrimTwice(value);
    Formats(Lower(Trim(value)));
    Types(Trim(value));
  }

  lemma {:induction false} TrimTwice(s: string)
    ensures Trim(Trim(s)) == Trim(s)
  {
    if |s| > 0 && IsSpace(s[0]) {
      TrimTwice(s[1..]);
    } else if |s| > 0 && IsSpace(s[|s| - 1]) {
      TrimTwice(s[..|s| - 1]);
    }
  }

  /** With a colon it is a container's entry if a format is in front, and carries its first column behind. */
  lemma {:induction false} FullToken(name: string, value: string, head: string, key: string, kind: string)
    requires '=' !in name && ':' !in head && '=' !in key && Trim(value) == head + ":" + (key + "=" + kind)
    ensures var n, f := Trim(name), Lower(Trim(head));
            Classify(name + "=" + value)
            == if n == "" || f !in {"plain", "json", "ecs", "journald"} then Stray
               else if key != "" && Trim(kind) in {"date/rfc3339", "date/rfc3339nano", "date/epoch-ms", "epoch",
                                                   "log-level", "abbreviate", "number", "string"} then
                 Entry(n, f, [Column(Trim(key), Trim(kind))], true)
               else Entry(n, f, [], false)
  {
    hide Trim, Lower, Classify, IsLogFormat, IsColumnType;
    assert "=" == ['='] && ":" == [':'];
    ClassifyAssigned(name, value);
    CutAt(head, ':', key + "=" + kind);
    CutAt(key, '=', kind);
    Formats(Lower(Trim(head)));
    Types(Trim(kind));
  }

  /** The same when no column is behind the colon. */
  lemma {:induction false} NoColumnToken(name: string, value: string, head: string, first: string)
    requires '=' !in name && ':' !in head && '=' !in first && Trim(value) == head + ":" + first
    ensures var n, f := Trim(name), Lower(Trim(head));
            Classify(name + "=" + value)
            == if n == "" || f !in {"plain", "json", "ecs", "journald"} then Stray else Entry(n, f, [], false)
  {
    hide Trim, Lower, Classify, IsLogFormat, IsColumnType;
    assert "=" == ['='] && ":" == [':'];
    ClassifyAssigned(name, value);
    CutAt(head, ':', first);
    NoIndex(first, '=');
    Formats(Lower(Trim(head)));
  }

  /** Columns go to the entry before them, as long as that is whole; otherwise they go nowhere. */
  lemma {:induction false} OrphansDropped(p: Progress, token: string, columns: seq<string>)
    requires var t := Classify(token); t.Stray? || (t.Entry? && !t.open)
    requires forall k | 0 <= k < |columns| :: Classify(columns[k]).Extra? || Classify(columns[k]).Blank?
    ensures AdvanceAll(p, [token] + columns).hints == Advance(p, Classify(token)).hints
  {
    hide Classify;
    assert ([token] + columns)[1..] == columns && ([token] + columns)[0] == token;
    NobodysColumns(Advance(p, Classify(token)), columns);
  }

  lemma {:induction false} NobodysColumns(p: Progress, columns: seq<string>)
    requires p.current.None?
    requires forall k | 0 <= k < |columns| :: Classify(columns[k]).Extra? || Classify(columns[k]).Blank?
    ensures AdvanceAll(p, columns) == p
    decreases |columns|
  {
    hide Classify;
    if columns != [] {
      assert Advance(p, Classify(columns[0])) == p;
      NobodysColumns(p, columns[1..]);
    }
  }

  /** A blank token does not come between an entry and its columns. */
  lemma {:induction false} BlankIgnored(p: Progress, a: seq<string>, token: string, b: seq<string>)
    requires '=' !in token && AllWhite(token)
    ensures AdvanceAll(p, a + [token] + b) == AdvanceAll(p, a + b)
  {
    hide Classify;
    PlainToken(token);
    TrimWhite(token);
    AdvanceAppend(p, a + [token], b);
    AdvanceAppend(p, a, [token]);
    AdvanceAppend(p, a, b);
    assert [token][1..] == [];
  }

  lemma {:induction false} TrimWhite(s: string)
    requires AllWhite(s)
    ensures Trim(s) == ""
  {
    if s != "" {
      TrimWhite(s[1..]);
    }
  }
}
