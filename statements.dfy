/**
 * The text of the INSERT statements that `add_state`, `add_color` and
 * `add_team` build with a string stream: a fixed template into which the row
 * id, the escaped names and the integers are spliced.
 *
 * The partner of the templates is `ParseInsert`, which reads the value list
 * of an INSERT statement back the way SQL reads it (numbers, and quoted
 * literals in which two quotes stand for one). The round-trip lemmas say that
 * each generated statement inserts exactly the values it was given: the id,
 * the name as it was before escaping, and the integers unchanged.
 */
module Statements {
  import opened Wrappers
  import opened Sanitize
  import opened Decimal

  /** `INSERT INTO STATE VALUES (<id>, '<escaped name>');` */
  function StateInsert(id: int, name: string): string
  {
    "INSERT INTO STATE VALUES (" + IntToDecimal(id) + ", '" + Escape(name) + "');"
  }

  /** `INSERT INTO COLOR VALUES (<id>, '<escaped name>');` */
  function ColorInsert(id: int, name: string): string
  {
    "INSERT INTO COLOR VALUES (" + IntToDecimal(id) + ", '" + Escape(name) + "');"
  }

  /** `INSERT INTO TEAM VALUES (<id>, '<escaped name>', <state>, <color>, <wins>, <losses>);` */
  function TeamInsert(id: int, name: string, stateId: int, colorId: int, wins: int, losses: int): string
  {
    "INSERT INTO TEAM VALUES (" + IntToDecimal(id) + ", '" + Escape(name) + "'"
    + ", " + IntToDecimal(stateId) + ", " + IntToDecimal(colorId)
    + ", " + IntToDecimal(wins) + ", " + IntToDecimal(losses) + ");"
  }

  /** A value in the VALUES list of an INSERT statement. */
  datatype SqlValue = IntValue(i: int) | TextValue(s: string)

  /** A value as the templates write it: a number, or a quoted literal of the escaped text. */
  function RenderValue(v: SqlValue): string
  {
    match v
    case IntValue(i) => IntToDecimal(i)
    case TextValue(s) => "'" + Escape(s) + "'"
  }

  /** A non-empty value list, the values separated by ", ". */
  function RenderValues(vs: seq<SqlValue>): string
    requires |vs| > 0
    decreases |vs|
  {
    if |vs| == 1 then RenderValue(vs[0]) else RenderValue(vs[0]) + ", " + RenderValues(vs[1..])
  }

  /** Reads one value at the front of `t`: a quoted literal or a number. */
  function ReadValue(t: string): (r: Option<(SqlValue, string)>)
    ensures r.Some? ==> |r.value.1| < |t|
  {
    if t != [] && t[0] == Quote then
      match ReadLiteral(t[1..])
      case None => None
      case Some((s, rest)) => Some((TextValue(s), rest))
    else
      match ReadInt(t)
      case None => None
      case Some((i, rest)) => Some((IntValue(i), rest))
  }

  /** Reads a value list up to and including the closing `);`, which must end the text. */
  function ParseValues(t: string): Option<seq<SqlValue>>
    decreases |t|
  {
    match ReadValue(t)
    case None => None
    case Some((v, rest)) =>
      if rest == ");" then Some([v])
      else if |rest| >= 2 && rest[..2] == ", " then
        match ParseValues(rest[2..])
        case None => None
        case Some(vs) => Some([v] + vs)
      else None
  }

  /** The values an `INSERT INTO <table> VALUES (...);` statement inserts, or None. */
  function ParseInsert(table: string, stmt: string): Option<seq<SqlValue>>
  {
    var head := "INSERT INTO " + table + " VALUES (";
    if |head| <= |stmt| && stmt[..|head|] == head then ParseValues(stmt[|head|..]) else None
  }

  lemma ReadRenderedValue(v: SqlValue, rest: string)
    requires |rest| > 0 && (rest[0] == ',' || rest[0] == ')')
    ensures ReadValue(RenderValue(v) + rest) == Some((v, rest))
  {
    match v
    case IntValue(i) => ReadRenderedInt(i, rest);
    case TextValue(s) => ReadRenderedText(s, rest);
  }

  lemma ReadRenderedInt(i: int, rest: string)
    requires |rest| > 0 && (rest[0] == ',' || rest[0] == ')')
    ensures ReadValue(IntToDecimal(i) + rest) == Some((IntValue(i), rest))
  {
    var d := IntToDecimal(i);
    assert (d + rest)[0] == d[0] != Quote;
    ReadIntDecimal(i, rest);
  }

  lemma ReadRenderedText(s: string, rest: string)
    requires |rest| > 0 && (rest[0] == ',' || rest[0] == ')')
    ensures ReadValue("'" + Escape(s) + "'" + rest) == Some((TextValue(s), rest))
  {
    var t := "'" + Escape(s) + "'" + rest;
    assert t[0] == Quote;
    assert t[1..] == Escape(s) + [Quote] + rest;
    ReadLiteralEscape(s, rest);
  }

  lemma ParseLastValue(t: string, v: SqlValue)
    requires ReadValue(t) == Some((v, ");"))
    ensures ParseValues(t) == Some([v])
  {
  }

  lemma ParseNextValue(t: string, v: SqlValue, u: string, vs: seq<SqlValue>)
    requires ReadValue(t) == Some((v, ", " + u))
    requires ParseValues(u) == Some(vs)
    ensures ParseValues(t) == Some([v] + vs)
  {
    var rest := ", " + u;
    assert rest[..2] == ", " && rest[2..] == u;
    assert rest != ");" by { assert rest[0] != ");"[0]; }
  }

  /** Round trip: a rendered value list, closed by `);`, parses back to the same values. */
  lemma {:induction false} ParseRenderedValues(vs: seq<SqlValue>)
    requires |vs| > 0
    ensures ParseValues(RenderValues(vs) + ");") == Some(vs)
    decreases |vs|
  {
    if |vs| == 1 {
      ReadRenderedValue(vs[0], ");");
      assert RenderValues(vs) == RenderValue(vs[0]) && vs == [vs[0]];
      ParseLastValue(RenderValue(vs[0]) + ");", vs[0]);
    } else {
      var u := RenderValues(vs[1..]) + ");";
      var rest := ", " + u;
      assert RenderValues(vs) + ");" == RenderValue(vs[0]) + rest;
      ReadRenderedValue(vs[0], rest);
      ParseRenderedValues(vs[1..]);
      ParseNextValue(RenderValue(vs[0]) + rest, vs[0], u, vs[1..]);
      assert vs == [vs[0]] + vs[1..];
    }
  }

  lemma ParseInsertHead(table: string, body: string)
    ensures ParseInsert(table, "INSERT INTO " + table + " VALUES (" + body) == ParseValues(body)
  {
    var head := "INSERT INTO " + table + " VALUES (";
    assert (head + body)[..|head|] == head && (head + body)[|head|..] == body;
  }

  /** Regrouping of a two-value template's pieces, kept apart from the literals for speed. */
  lemma RegroupPair(head: string, a: string, sq: string, s: string, q: string, n: string, qz: string, z: string)
    requires sq == s + q && qz == q + z
    ensures head + a + sq + n + qz == head + ((a + s + (q + n + q)) + z)
  {
  }

  /** Two values rendered as a list: the first, ", ", then the second. */
  lemma RenderPair(v: SqlValue, w: SqlValue)
    ensures RenderValues([v, w]) == RenderValue(v) + ", " + RenderValue(w)
  {
    assert [v, w][1..] == [w];
  }

  /** The state statement inserts exactly the row (id, name). */
  lemma StateInsertValues(id: int, name: string)
    ensures ParseInsert("STATE", StateInsert(id, name)) == Some([IntValue(id), TextValue(name)])
  {
    var vs := [IntValue(id), TextValue(name)];
    var body := RenderValues(vs) + ");";
    RenderPair(vs[0], vs[1]);
    var head := "INSERT INTO " + "STATE" + " VALUES (";
    assert head == "INSERT INTO STATE VALUES (";
    RegroupPair(head, IntToDecimal(id), ", '", ", ", "'", Escape(name), "');", ");");
    ParseInsertHead("STATE", body);
    ParseRenderedValues(vs);
  }

  /** The color statement inserts exactly the row (id, name). */
  lemma ColorInsertValues(id: int, name: string)
    ensures ParseInsert("COLOR", ColorInsert(id, name)) == Some([IntValue(id), TextValue(name)])
  {
    var vs := [IntValue(id), TextValue(name)];
    var body := RenderValues(vs) + ");";
    RenderPair(vs[0], vs[1]);
    var head := "INSERT INTO " + "COLOR" + " VALUES (";
    assert head == "INSERT INTO COLOR VALUES (";
    RegroupPair(head, IntToDecimal(id), ", '", ", ", "'", Escape(name), "');", ");");
    ParseInsertHead("COLOR", body);
    ParseRenderedValues(vs);
  }

  /** The team statement inserts exactly (id, name, state, color, wins, losses), integers unchanged. */
  lemma TeamInsertValues(id: int, name: string, stateId: int, colorId: int, wins: int, losses: int)
    ensures ParseInsert("TEAM", TeamInsert(id, name, stateId, colorId, wins, losses))
         == Some([IntValue(id), TextValue(name), IntValue(stateId), IntValue(colorId), IntValue(wins), IntValue(losses)])
  {
    var vs := [IntValue(id), TextValue(name), IntValue(stateId), IntValue(colorId), IntValue(wins), IntValue(losses)];
    RenderSix(IntValue(id), TextValue(name), IntValue(stateId), IntValue(colorId), IntValue(wins), IntValue(losses));
    var a, l, b, c := IntToDecimal(id), "'" + Escape(name) + "'", IntToDecimal(stateId), IntToDecimal(colorId);
    var d, e := IntToDecimal(wins), IntToDecimal(losses);
    assert RenderValue(TextValue(name)) == l;
    var values := a + ", " + (l + ", " + (b + ", " + (c + ", " + (d + ", " + e))));
    assert RenderValues(vs) == values;
    var body := values + ");";
    TeamInsertText(id, name, stateId, colorId, wins, losses);
    ParseInsertHead("TEAM", body);
    ParseRenderedValues(vs);
  }

  /** Six values rendered as a list, each followed by ", " but the last. */
  lemma RenderSix(v0: SqlValue, v1: SqlValue, v2: SqlValue, v3: SqlValue, v4: SqlValue, v5: SqlValue)
    ensures RenderValues([v0, v1, v2, v3, v4, v5])
         == RenderValue(v0) + ", " + (RenderValue(v1) + ", " + (RenderValue(v2) + ", " +
            (RenderValue(v3) + ", " + (RenderValue(v4) + ", " + RenderValue(v5)))))
  {
    RenderPair(v4, v5);
    RenderFront([v3, v4, v5]);
    assert [v3, v4, v5][1..] == [v4, v5];
    RenderFront([v2, v3, v4, v5]);
    assert [v2, v3, v4, v5][1..] == [v3, v4, v5];
    RenderFront([v1, v2, v3, v4, v5]);
    assert [v1, v2, v3, v4, v5][1..] == [v2, v3, v4, v5];
    RenderFront([v0, v1, v2, v3, v4, v5]);
    assert [v0, v1, v2, v3, v4, v5][1..] == [v1, v2, v3, v4, v5];
  }

  /** A list of two or more values: the first, ", ", then the rest. */
  lemma RenderFront(vs: seq<SqlValue>)
    requires |vs| > 1
    ensures RenderValues(vs) == RenderValue(vs[0]) + ", " + RenderValues(vs[1..])
  {
  }

  lemma TeamInsertText(id: int, name: string, stateId: int, colorId: int, wins: int, losses: int)
    ensures TeamInsert(id, name, stateId, colorId, wins, losses)
         == "INSERT INTO " + "TEAM" + " VALUES (" + ((IntToDecimal(id) + ", " + (("'" + Escape(name) + "'") + ", " +
            (IntToDecimal(stateId) + ", " + (IntToDecimal(colorId) + ", " + (IntToDecimal(wins) + ", " + IntToDecimal(losses)))))) + ");")
  {
    assert "INSERT INTO TEAM VALUES (" == "INSERT INTO " + "TEAM" + " VALUES (";
    Reassociate("INSERT INTO TEAM VALUES (", IntToDecimal(id), ", '", ", ", "'", Escape(name),
      IntToDecimal(stateId), IntToDecimal(colorId), IntToDecimal(wins), IntToDecimal(losses), ");");
  }

  /** Regrouping of the team template's pieces, kept apart from the literals for speed. */
  lemma Reassociate(h: string, a: string, sq: string, s: string, q: string, n: string,
                    b: string, c: string, d: string, e: string, z: string)
    requires sq == s + q
    ensures h + a + sq + n + q + s + b + s + c + s + d + s + e + z
         == h + ((a + s + ((q + n + q) + s + (b + s + (c + s + (d + s + e))))) + z)
  {
  }
}
