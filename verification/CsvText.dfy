/** How CSV.cpp writes a record as one line of text and reads it back. */
module CsvText {
  import opened Seqs
  import opened Wrappers

  predicate Break(c: char) {
    c == '\n' || c == '\r'
  }

  predicate Special(c: char) {
    c == ',' || c == '"' || Break(c)
  }

  predicate NeedsQuotes(v: string) {
    exists i :: 0 <= i < |v| && Special(v[i])
  }

  /** The inside of a quoted field. */
  function Doubled(v: string): string {
    if v == "" then ""
    else (if Break(v[0]) then " " else if v[0] == '"' then "\"\"" else [v[0]]) + Doubled(v[1..])
  }

  /** A null pointer and an empty string both become an empty field. */
  function Escape(v: Option<string>): string {
    match v
    case None => ""
    case Some(s) => if NeedsQuotes(s) then "\"" + Doubled(s) + "\"" else s
  }

  /** The text of the fields from number i on, each but the first behind a comma. */
  function JoinFrom(params: seq<Option<string>>, i: nat): string
    requires i <= |params|
    decreases |params| - i
  {
    if i == |params| then ""
    else (if i > 0 then "," else "") + (Escape(params[i]) + JoinFrom(params, i + 1))
  }

  function Join(params: seq<Option<string>>): string {
    JoinFrom(params, 0)
  }

  /** What a reader gets back: null as empty, line breaks as spaces. */
  function Flat(v: Option<string>): string {
    match v
    case None => ""
    case Some(s) => Spaced(s)
  }

  function Spaced(s: string): (f: string)
    ensures |f| == |s| && forall i :: 0 <= i < |s| ==> f[i] == if s[i] == '\n' || s[i] == '\r' then ' ' else s[i]
  {
    if s == "" then "" else [if Break(s[0]) then ' ' else s[0]] + Spaced(s[1..])
  }

  function FlatFrom(params: seq<Option<string>>, i: nat): (r: seq<string>)
    requires i <= |params|
    ensures |r| == |params| - i
    decreases |params| - i
  {
    if i == |params| then [] else [Flat(params[i])] + FlatFrom(params, i + 1)
  }

  lemma {:induction false} FlatAt(params: seq<Option<string>>, i: nat, k: nat)
    requires i + k < |params|
    ensures FlatFrom(params, i)[k] == Flat(params[i + k])
    decreases k
  {
    if k > 0 {
      FlatAt(params, i + 1, k - 1);
    }
  }

  /** Reading on from `rest` with the fields so far, the field begun and whether it is in quotes. */
  function Split(rest: string, fields: seq<string>, field: string, quoted: bool): (seq<string>, bool)
    decreases |rest|
  {
    if rest == "" then (fields + [field], !quoted)
    else if quoted then
      if rest[0] != '"' then Split(rest[1..], fields, field + [rest[0]], true)
      else if |rest| > 1 && rest[1] == '"' then Split(rest[2..], fields, field + ['"'], true)
      else Split(rest[1..], fields, field, false)
    else if rest[0] == '"' then Split(rest[1..], fields, field, true)
    else if rest[0] == ',' then Split(rest[1..], fields + [field], "", false)
    else Split(rest[1..], fields, field + [rest[0]], false)
  }

  function Quotes(s: string): nat {
    if s == "" then 0 else (if s[0] == '"' then 1 else 0) + Quotes(s[1..])
  }

  /** A line is refused exactly when its quotes do not pair up, as in a line that was cut short. */
  lemma {:induction false} SplitIff(rest: string, fields: seq<string>, field: string, quoted: bool)
    ensures Split(rest, fields, field, quoted).1 <==> (Quotes(rest) % 2 == 0) == !quoted
    decreases |rest|
  {
    if rest != "" {
      if quoted && rest[0] != '"' {
        SplitIff(rest[1..], fields, field + [rest[0]], true);
      } else if quoted && |rest| > 1 && rest[1] == '"' {
        assert rest[1..][1..] == rest[2..];
        SplitIff(rest[2..], fields, field + ['"'], true);
      } else if quoted {
        SplitIff(rest[1..], fields, field, false);
      } else if rest[0] == '"' {
        SplitIff(rest[1..], fields, field, true);
      } else if rest[0] == ',' {
        SplitIff(rest[1..], fields + [field], "", false);
      } else {
        SplitIff(rest[1..], fields, field + [rest[0]], false);
      }
    }
  }

  /** A field without commas, quotes and line breaks is written as it is, any other between quotes. */
  lemma PlainIff(s: string)
    ensures Escape(Some(s)) == s <==> ',' !in s && '"' !in s && '\n' !in s && '\r' !in s
    ensures Escape(Some(s)) != s ==> var e := Escape(Some(s)); |e| >= 2 && e[0] == '"' && e[|e| - 1] == '"'
  {
    if NeedsQuotes(s) {
      DoubledIsLonger(s);
    }
  }

  lemma {:induction false} DoubledIsLonger(s: string)
    ensures |Doubled(s)| >= |s|
  {
    if s != "" {
      DoubledIsLonger(s[1..]);
    }
  }

  method HasSpecial(v: string) returns (found: bool)
    ensures found == NeedsQuotes(v)
  {
    found := false;
    for i := 0 to |v|
      invariant !found
      invariant forall k :: 0 <= k < i ==> !Special(v[k])
    {
      if Special(v[i]) {
        return true;
      }
    }
  }

  lemma {:induction false} DoubledAppend(v: string, c: char)
    ensures Doubled(v + [c]) == Doubled(v) + Doubled([c])
  {
    if v == "" {
      assert v + [c] == [c];
    } else {
      assert (v + [c])[1..] == v[1..] + [c];
      DoubledAppend(v[1..], c);
    }
  }

  method AppendEscaped(out: string, v: Option<string>) returns (r: string)
    ensures r == out + Escape(v)
  {
    r := out;
    if v.None? {
      return;
    }
    var s := v.value;
    var quote := HasSpecial(s);
    if !quote {
      r := r + s;
      return;
    }
    r := r + "\"";
    for p := 0 to |s|
      invariant r == out + "\"" + Doubled(s[..p])
    {
      assert s[..p + 1] == s[..p] + [s[p]] && [s[p]][1..] == "";
      DoubledAppend(s[..p], s[p]);
      if Break(s[p]) {
        r := r + " ";
        continue;
      }
      if s[p] == '"' {
        r := r + "\"";
      }
      r := r + [s[p]];
    }
    assert s[..|s|] == s;
    r := r + "\"";
  }

  method JoinLine(params: seq<Option<string>>) returns (line: string)
    ensures line == Join(params)
  {
    line := "";
    for i := 0 to |params|
      invariant line + JoinFrom(params, i) == Join(params)
    {
      var comma := if i > 0 then "," else "";
      Regroup4(line, comma, Escape(params[i]), JoinFrom(params, i + 1));
      line := line + comma;
      line := AppendEscaped(line, params[i]);
    }
    assert line + "" == line;
  }

  method SplitLine(line: string) returns (out: seq<string>, ok: bool)
    ensures (out, ok) == Split(line, [], "", false)
  {
    out := [];
    var field := "";
    var quoted := false;
    var i := 0;
    while i < |line|
      invariant 0 <= i <= |line|
      invariant Split(line[i..], out, field, quoted) == Split(line, [], "", false)
    {
      var c := line[i];
      assert line[i..][1..] == line[i + 1..];
      if quoted {
        if c != '"' {
          field := field + [c];
        } else if i + 1 < |line| && line[i + 1] == '"' {
          assert line[i..][2..] == line[i + 2..];
          field := field + [line[i]];
          i := i + 1;
        } else {
          quoted := false;
        }
      } else if c == '"' {
        quoted := true;
      } else if c == ',' {
        out := out + [field];
        field := "";
      } else {
        field := field + [c];
      }
      i := i + 1;
    }
    out := out + [field];
    ok := !quoted;
  }

  // ---------- reading what was written ----------

  predicate EndsField(rest: string) {
    rest == "" || rest[0] == ','
  }

  lemma {:induction false} PlainRead(s: string, rest: string, fields: seq<string>, field: string)
    requires !NeedsQuotes(s)
    ensures Split(s + rest, fields, field, false) == Split(rest, fields, field + s, false)
    ensures Spaced(s) == s
    decreases |s|
  {
    if s == "" {
      assert s + rest == rest && field + s == field;
    } else {
      assert !Special(s[0]);
      assert !NeedsQuotes(s[1..]) by {
        assert forall i :: 0 <= i < |s[1..]| ==> s[1..][i] == s[i + 1];
      }
      assert (s + rest)[1..] == s[1..] + rest;
      assert field + [s[0]] + s[1..] == field + s;
      PlainRead(s[1..], rest, fields, field + [s[0]]);
    }
  }

  lemma {:induction false} QuotedRead(s: string, rest: string, fields: seq<string>, field: string)
    requires EndsField(rest)
    ensures Split(Doubled(s) + "\"" + rest, fields, field, true) == Split(rest, fields, field + Spaced(s), false)
    decreases |s|
  {
    var text := Doubled(s) + "\"" + rest;
    if s == "" {
      assert text == "\"" + rest && text[1..] == rest && field + Spaced(s) == field;
    } else {
      var more := Doubled(s[1..]) + "\"" + rest;
      var c := Spaced(s)[0];
      assert field + [c] + Spaced(s[1..]) == field + Spaced(s);
      QuotedRead(s[1..], rest, fields, field + [c]);
      if s[0] == '"' {
        assert text == "\"\"" + more && text[2..] == more;
      } else {
        assert text == [c] + more && text[1..] == more;
      }
    }
  }

  lemma FieldRead(v: Option<string>, rest: string, fields: seq<string>)
    requires EndsField(rest)
    ensures Split(Escape(v) + rest, fields, "", false) == Split(rest, fields, Flat(v), false)
  {
    match v
    case None =>
      assert "" + rest == rest;
    case Some(s) =>
      if NeedsQuotes(s) {
        var body := Doubled(s) + "\"" + rest;
        assert Escape(v) + rest == "\"" + body;
        assert ("\"" + body)[1..] == body;
        QuotedRead(s, rest, fields, "");
        assert "" + Spaced(s) == Flat(v);
      } else {
        PlainRead(s, rest, fields, "");
        assert "" + s == Flat(v);
      }
  }

  lemma CommaRead(rest: string, fields: seq<string>, field: string)
    ensures Split("," + rest, fields, field, false) == Split(rest, fields + [field], "", false)
  {
    assert ("," + rest)[1..] == rest;
  }

  lemma {:induction false} RestRead(params: seq<Option<string>>, i: nat, fields: seq<string>, field: string)
    requires 0 < i <= |params|
    ensures Split(JoinFrom(params, i), fields, field, false) == (fields + ([field] + FlatFrom(params, i)), true)
    decreases |params| - i
  {
    if i == |params| {
      assert [field] + FlatFrom(params, i) == [field];
    } else {
      var rest := JoinFrom(params, i + 1);
      CommaRead(Escape(params[i]) + rest, fields, field);
      FieldRead(params[i], rest, fields + [field]);
      RestRead(params, i + 1, fields + [field], Flat(params[i]));
      assert (fields + [field]) + FlatFrom(params, i) == fields + ([field] + FlatFrom(params, i));
    }
  }

  /** A line written from any nonempty record reads back as that record, flattened. */
  lemma RoundTrip(params: seq<Option<string>>)
    requires params != []
    ensures Split(Join(params), [], "", false) == (FlatFrom(params, 0), true)
  {
    var rest := JoinFrom(params, 1);
    assert Join(params) == "" + (Escape(params[0]) + rest) == Escape(params[0]) + rest;
    FieldRead(params[0], rest, []);
    RestRead(params, 1, [], Flat(params[0]));
    assert [] + FlatFrom(params, 0) == FlatFrom(params, 0);
  }

  predicate OneLine(text: string) {
    forall i :: 0 <= i < |text| ==> text[i] != '\n' && text[i] != '\r'
  }

  lemma {:induction false} DoubledOneLine(s: string)
    ensures OneLine(Doubled(s))
  {
    if s != "" {
      DoubledOneLine(s[1..]);
    }
  }

  lemma {:induction false} RestIsOneLine(params: seq<Option<string>>, i: nat)
    requires i <= |params|
    ensures OneLine(JoinFrom(params, i))
    decreases |params| - i
  {
    if i < |params| {
      var v := params[i];
      if v.Some? {
        DoubledOneLine(v.value);
        assert forall k :: 0 <= k < |v.value| && Break(v.value[k]) ==> Special(v.value[k]);
      }
      assert OneLine(Escape(v));
      RestIsOneLine(params, i + 1);
    }
  }

  /** A record is always one line. */
  lemma JoinedIsOneLine(params: seq<Option<string>>)
    ensures OneLine(Join(params))
  {
    RestIsOneLine(params, 0);
  }
}
