/**
 * The bulk-load path of query_funcs.cpp: the per-entity id counters and
 * statement text of `add_state`, `add_color` and `add_team` (and the id
 * counter of `add_player`), and the line loops `fillState`, `fillColor` and
 * `fillTeam` that call them.
 *
 * The function-static counters become the fields of a `LoaderSession`; the
 * database's `exec` and `commit` of each statement become appending the
 * statement to the session's `executed` log. A file is the sequence of its
 * lines, and reading one line with a string stream is a given partial
 * function `parse` from a line to a row.
 */
module Loader {
  import opened Wrappers
  import opened Statements

  /** A parsed line of the state file, `<id> <name>`. */
  datatype StateLine = StateLine(fileId: int, name: string)

  /** A parsed line of the color file, `<id> <name>`. */
  datatype ColorLine = ColorLine(fileId: int, name: string)

  /** A parsed line of the team file, `<id> <name> <state> <color> <wins> <losses>`. */
  datatype TeamLine = TeamLine(fileId: int, name: string, stateId: int, colorId: int, wins: int, losses: int)

  /**
   * The rows of the longest prefix of `lines` in which every line parses:
   * reading stops at the first line that does not.
   */
  function ParsedPrefix<R>(lines: seq<string>, parse: string -> Option<R>): (rows: seq<R>)
    ensures |rows| <= |lines|
    decreases |lines|
  {
    if lines == [] then []
    else
      match parse(lines[0])
      case None => []
      case Some(row) => [row] + ParsedPrefix(lines[1..], parse)
  }

  /**
   * The i-th row is what the i-th line parses to, and the line after the
   * last row, if there is one, is the line that does not parse.
   */
  lemma {:induction false} ParsedPrefixRows<R>(lines: seq<string>, parse: string -> Option<R>)
    ensures forall i :: 0 <= i < |ParsedPrefix(lines, parse)| ==> parse(lines[i]) == Some(ParsedPrefix(lines, parse)[i])
    ensures |ParsedPrefix(lines, parse)| < |lines| ==> parse(lines[|ParsedPrefix(lines, parse)|]) == None
    decreases |lines|
  {
    if lines != [] && parse(lines[0]).Some? {
      ParsedPrefixRows(lines[1..], parse);
    }
  }

  /** Nothing after an unparsable line matters: appending lines changes nothing. */
  lemma {:induction false} ParsedPrefixIgnoresRest<R>(lines: seq<string>, more: seq<string>, parse: string -> Option<R>, k: nat)
    requires k < |lines| && parse(lines[k]) == None
    ensures ParsedPrefix(lines + more, parse) == ParsedPrefix(lines, parse)
    decreases |lines|
  {
    assert (lines + more)[0] == lines[0];
    if k > 0 && parse(lines[0]).Some? {
      assert (lines + more)[1..] == lines[1..] + more;
      ParsedPrefixIgnoresRest(lines[1..], more, parse, k - 1);
    }
  }

  /** The first `|rows|` lines parse, in order, to `rows`. */
  ghost predicate ParsesTo<R>(lines: seq<string>, parse: string -> Option<R>, rows: seq<R>)
  {
    |rows| <= |lines| && forall k :: 0 <= k < |rows| ==> parse(lines[k]) == Some(rows[k])
  }

  lemma ParsesToStep<R>(lines: seq<string>, parse: string -> Option<R>, rows: seq<R>, row: R)
    requires ParsesTo(lines, parse, rows) && |rows| < |lines| && parse(lines[|rows|]) == Some(row)
    ensures ParsesTo(lines, parse, rows + [row])
  {
  }

  /**
   * Conversely, rows that the first lines parse to, followed by the end of
   * the input or by a line that does not parse, are the parsed prefix.
   */
  lemma {:induction false} ParsedPrefixIs<R>(lines: seq<string>, parse: string -> Option<R>, rows: seq<R>)
    requires ParsesTo(lines, parse, rows)
    requires |rows| < |lines| ==> parse(lines[|rows|]) == None
    ensures ParsedPrefix(lines, parse) == rows
    decreases |lines|
  {
    if rows != [] {
      assert parse(lines[0]) == Some(rows[0]);
      assert ParsesTo(lines[1..], parse, rows[1..]) by {
        forall k | 0 <= k < |rows[1..]|
          ensures parse(lines[1..][k]) == Some(rows[1..][k])
        {
          assert parse(lines[k + 1]) == Some(rows[k + 1]);
        }
      }
      ParsedPrefixIs(lines[1..], parse, rows[1..]);
      assert rows == [rows[0]] + rows[1..];
    }
  }

  /**
   * The statements of successive calls of one `add_*` function on `rows`,
   * its counter standing at `last` before the first call: the i-th row gets
   * the id `last + i + 1`.
   */
  function Inserts<R>(last: int, rows: seq<R>, insert: (int, R) -> string): (stmts: seq<string>)
    ensures |stmts| == |rows|
    decreases |rows|
  {
    if rows == [] then [] else [insert(last + 1, rows[0])] + Inserts(last + 1, rows[1..], insert)
  }

  /** The i-th statement is the one for the i-th row, with the id `last + i + 1`. */
  lemma {:induction false} InsertsAt<R>(last: int, rows: seq<R>, insert: (int, R) -> string, i: nat)
    requires i < |rows|
    ensures Inserts(last, rows, insert)[i] == insert(last + i + 1, rows[i])
    decreases |rows|
  {
    if i > 0 {
      InsertsAt(last + 1, rows[1..], insert, i - 1);
    }
  }

  lemma {:induction false} InsertsAppend<R>(last: int, rows: seq<R>, row: R, insert: (int, R) -> string)
    ensures Inserts(last, rows + [row], insert) == Inserts(last, rows, insert) + [insert(last + |rows| + 1, row)]
    decreases |rows|
  {
    if rows == [] {
      assert rows + [row] == [row];
    } else {
      assert (rows + [row])[1..] == rows[1..] + [row];
      InsertsAppend(last + 1, rows[1..], row, insert);
    }
  }

  /** One more call of the same `add_*` function extends the log by the statement for the next row. */
  lemma LogStep<R>(log: seq<string>, base: seq<string>, last: int, rows: seq<R>, row: R,
                   insert: (int, R) -> string, stmt: string)
    requires log == base + Inserts(last, rows, insert)
    requires stmt == insert(last + |rows| + 1, row)
    ensures log + [stmt] == base + Inserts(last, rows + [row], insert)
  {
    InsertsAppend(last, rows, row, insert);
  }

  /** What `add_state` inserts for a parsed line: the file's id is not used. */
  function StateRowInsert(id: int, row: StateLine): string
  {
    StateInsert(id, row.name)
  }

  /** What `add_color` inserts for a parsed line: the file's id is not used. */
  function ColorRowInsert(id: int, row: ColorLine): string
  {
    ColorInsert(id, row.name)
  }

  /** What `add_team` inserts for a parsed line: the file's id is not used. */
  function TeamRowInsert(id: int, row: TeamLine): string
  {
    TeamInsert(id, row.name, row.stateId, row.colorId, row.wins, row.losses)
  }

  /** The log step of `FillState`, in the terms of the `AddState` contract. */
  lemma StateLogStep(log: seq<string>, base: seq<string>, last: int, rows: seq<StateLine>, row: StateLine, stmt: string)
    requires log == base + Inserts(last, rows, StateRowInsert)
    requires stmt == StateInsert(last + |rows| + 1, row.name)
    ensures log + [stmt] == base + Inserts(last, rows + [row], StateRowInsert)
  {
    LogStep(log, base, last, rows, row, StateRowInsert, stmt);
  }

  /** The log step of `FillColor`, in the terms of the `AddColor` contract. */
  lemma ColorLogStep(log: seq<string>, base: seq<string>, last: int, rows: seq<ColorLine>, row: ColorLine, stmt: string)
    requires log == base + Inserts(last, rows, ColorRowInsert)
    requires stmt == ColorInsert(last + |rows| + 1, row.name)
    ensures log + [stmt] == base + Inserts(last, rows + [row], ColorRowInsert)
  {
    LogStep(log, base, last, rows, row, ColorRowInsert, stmt);
  }

  /** The log step of `FillTeam`, in the terms of the `AddTeam` contract. */
  lemma TeamLogStep(log: seq<string>, base: seq<string>, last: int, rows: seq<TeamLine>, row: TeamLine, stmt: string)
    requires log == base + Inserts(last, rows, TeamRowInsert)
    requires stmt == TeamInsert(last + |rows| + 1, row.name, row.stateId, row.colorId, row.wins, row.losses)
    ensures log + [stmt] == base + Inserts(last, rows + [row], TeamRowInsert)
  {
    LogStep(log, base, last, rows, row, TeamRowInsert, stmt);
  }

  /** The i-th state statement inserts the id from the counter and the line's name. */
  lemma StateInsertsValues(last: int, rows: seq<StateLine>, i: nat)
    requires i < |rows|
    ensures ParseInsert("STATE", Inserts(last, rows, StateRowInsert)[i])
         == Some([IntValue(last + i + 1), TextValue(rows[i].name)])
  {
    InsertsAt(last, rows, StateRowInsert, i);
    StateInsertValues(last + i + 1, rows[i].name);
  }

  /** The i-th color statement inserts the id from the counter and the line's name. */
  lemma ColorInsertsValues(last: int, rows: seq<ColorLine>, i: nat)
    requires i < |rows|
    ensures ParseInsert("COLOR", Inserts(last, rows, ColorRowInsert)[i])
         == Some([IntValue(last + i + 1), TextValue(rows[i].name)])
  {
    InsertsAt(last, rows, ColorRowInsert, i);
    ColorInsertValues(last + i + 1, rows[i].name);
  }

  /**
   * The i-th team statement inserts the id from the counter and the line's
   * name, and the state and color references, wins and losses as they were read.
   */
  lemma TeamInsertsValues(last: int, rows: seq<TeamLine>, i: nat)
    requires i < |rows|
    ensures ParseInsert("TEAM", Inserts(last, rows, TeamRowInsert)[i])
         == Some([IntValue(last + i + 1), TextValue(rows[i].name), IntValue(rows[i].stateId),
                  IntValue(rows[i].colorId), IntValue(rows[i].wins), IntValue(rows[i].losses)])
  {
    var r := rows[i];
    InsertsAt(last, rows, TeamRowInsert, i);
    var stmt := TeamInsert(last + i + 1, r.name, r.stateId, r.colorId, r.wins, r.losses);
    assert Inserts(last, rows, TeamRowInsert)[i] == stmt;
    TeamInsertValues(last + i + 1, r.name, r.stateId, r.colorId, r.wins, r.losses);
    assert ParseInsert("TEAM", stmt)
        == Some([IntValue(last + i + 1), TextValue(r.name), IntValue(r.stateId), IntValue(r.colorId), IntValue(r.wins), IntValue(r.losses)]);
  }

  /** Rows that get the same statement, position by position, give the same statements. */
  lemma {:induction false} InsertsAgree<R>(last: int, rows: seq<R>, others: seq<R>, insert: (int, R) -> string)
    requires |rows| == |others|
    requires forall i :: 0 <= i < |rows| ==> insert(last + i + 1, rows[i]) == insert(last + i + 1, others[i])
    ensures Inserts(last, rows, insert) == Inserts(last, others, insert)
    decreases |rows|
  {
    if rows != [] {
      assert insert(last + 1, rows[0]) == insert(last + 1, others[0]);
      forall i | 0 <= i < |rows[1..]|
        ensures insert(last + 1 + i + 1, rows[1..][i]) == insert(last + 1 + i + 1, others[1..][i])
      {
        assert insert(last + (i + 1) + 1, rows[i + 1]) == insert(last + (i + 1) + 1, others[i + 1]);
      }
      InsertsAgree(last + 1, rows[1..], others[1..], insert);
    }
  }

  /** Two sequences of parsed state rows that differ only in `fileId` give the same statements. */
  lemma StateInsertsIgnoreFileId(last: int, rows: seq<StateLine>, others: seq<StateLine>)
    requires |rows| == |others|
    requires forall i :: 0 <= i < |rows| ==> rows[i].name == others[i].name
    ensures Inserts(last, rows, StateRowInsert) == Inserts(last, others, StateRowInsert)
  {
    forall i | 0 <= i < |rows|
      ensures StateRowInsert(last + i + 1, rows[i]) == StateRowInsert(last + i + 1, others[i])
    {
    }
    InsertsAgree(last, rows, others, StateRowInsert);
  }

  /** Two sequences of parsed color rows that differ only in `fileId` give the same statements. */
  lemma ColorInsertsIgnoreFileId(last: int, rows: seq<ColorLine>, others: seq<ColorLine>)
    requires |rows| == |others|
    requires forall i :: 0 <= i < |rows| ==> rows[i].name == others[i].name
    ensures Inserts(last, rows, ColorRowInsert) == Inserts(last, others, ColorRowInsert)
  {
    forall i | 0 <= i < |rows|
      ensures ColorRowInsert(last + i + 1, rows[i]) == ColorRowInsert(last + i + 1, others[i])
    {
    }
    InsertsAgree(last, rows, others, ColorRowInsert);
  }

  /** Two sequences of parsed team rows that differ only in `fileId` give the same statements. */
  lemma TeamInsertsIgnoreFileId(last: int, rows: seq<TeamLine>, others: seq<TeamLine>)
    requires |rows| == |others|
    requires forall i :: 0 <= i < |rows| ==> rows[i].(fileId := 0) == others[i].(fileId := 0)
    ensures Inserts(last, rows, TeamRowInsert) == Inserts(last, others, TeamRowInsert)
  {
    forall i | 0 <= i < |rows|
      ensures TeamRowInsert(last + i + 1, rows[i]) == TeamRowInsert(last + i + 1, others[i])
    {
      assert rows[i].name == rows[i].(fileId := 0).name;
      assert others[i].name == others[i].(fileId := 0).name;
    }
    InsertsAgree(last, rows, others, TeamRowInsert);
  }

  /**
   * One load session: the id counters of the four `add_*` functions and the
   * statements executed so far. Every counter starts at 0 and is incremented
   * before use, so one entity's ids run 1, 2, 3, ...
   */
  class LoaderSession {
    var stateId: nat
    var colorId: nat
    var teamId: nat
    var playerId: nat
    var executed: seq<string>

    constructor ()
      ensures stateId == 0 && colorId == 0 && teamId == 0 && playerId == 0
      ensures executed == []
    {
      stateId, colorId, teamId, playerId := 0, 0, 0, 0;
      executed := [];
    }

    /** `add_state`: take the next state id and execute the state statement. */
    method AddState(name: string) returns (stmt: string)
      modifies this
      ensures stateId == old(stateId) + 1
      ensures colorId == old(colorId) && teamId == old(teamId) && playerId == old(playerId)
      ensures stmt == StateInsert(stateId, name)
      ensures executed == old(executed) + [stmt]
    {
      stateId := stateId + 1;
      var sanitized := Sanitize.SanitizeString(name);
      stmt := "INSERT INTO STATE VALUES (" + Decimal.IntToDecimal(stateId) + ", '" + sanitized + "');";
      executed := executed + [stmt];
    }

    /** `add_color`: take the next color id and execute the color statement. */
    method AddColor(name: string) returns (stmt: string)
      modifies this
      ensures colorId == old(colorId) + 1
      ensures stateId == old(stateId) && teamId == old(teamId) && playerId == old(playerId)
      ensures stmt == ColorInsert(colorId, name)
      ensures executed == old(executed) + [stmt]
    {
      colorId := colorId + 1;
      var sanitized := Sanitize.SanitizeString(name);
      stmt := "INSERT INTO COLOR VALUES (" + Decimal.IntToDecimal(colorId) + ", '" + sanitized + "');";
      executed := executed + [stmt];
    }

    /** `add_team`: take the next team id and execute the team statement. */
    method AddTeam(name: string, stateRef: int, colorRef: int, wins: int, losses: int) returns (stmt: string)
      modifies this
      ensures teamId == old(teamId) + 1
      ensures stateId == old(stateId) && colorId == old(colorId) && playerId == old(playerId)
      ensures stmt == TeamInsert(teamId, name, stateRef, colorRef, wins, losses)
      ensures executed == old(executed) + [stmt]
    {
      teamId := teamId + 1;
      var sanitized := Sanitize.SanitizeString(name);
      stmt := "INSERT INTO TEAM VALUES (" + Decimal.IntToDecimal(teamId) + ", '" + sanitized + "'"
        + ", " + Decimal.IntToDecimal(stateRef) + ", " + Decimal.IntToDecimal(colorRef)
        + ", " + Decimal.IntToDecimal(wins) + ", " + Decimal.IntToDecimal(losses) + ");";
      executed := executed + [stmt];
    }

    /** The counter of `add_player`: take the next player id. */
    method NextPlayerId() returns (id: nat)
      modifies this
      ensures playerId == old(playerId) + 1 && id == playerId
      ensures stateId == old(stateId) && colorId == old(colorId) && teamId == old(teamId)
      ensures executed == old(executed)
    {
      playerId := playerId + 1;
      id := playerId;
    }

    /** `fillState`: one `add_state` per line, in order, up to the first line that does not parse. */
    method FillState(lines: seq<string>, parse: string -> Option<StateLine>)
      modifies this
      ensures stateId == old(stateId) + |ParsedPrefix(lines, parse)|
      ensures colorId == old(colorId) && teamId == old(teamId) && playerId == old(playerId)
      ensures executed == old(executed) + Inserts(old(stateId), ParsedPrefix(lines, parse), StateRowInsert)
    {
      ghost var rows: seq<StateLine> := [];
      var i := 0;
      while i < |lines|
        invariant |rows| == i && ParsesTo(lines, parse, rows)
        invariant stateId == old(stateId) + |rows|
        invariant colorId == old(colorId) && teamId == old(teamId) && playerId == old(playerId)
        invariant executed == old(executed) + Inserts(old(stateId), rows, StateRowInsert)
      {
        var parsed := parse(lines[i]);
        if parsed.None? {
          break;
        }
        var row := parsed.value;
        ParsesToStep(lines, parse, rows, row);
        ghost var log := executed;
        var stmt := AddState(row.name);
        StateLogStep(log, old(executed), old(stateId), rows, row, stmt);
        rows := rows + [row];
        i := i + 1;
      }
      ParsedPrefixIs(lines, parse, rows);
    }

    /** `fillColor`: one `add_color` per line, in order, up to the first line that does not parse. */
    method FillColor(lines: seq<string>, parse: string -> Option<ColorLine>)
      modifies this
      ensures colorId == old(colorId) + |ParsedPrefix(lines, parse)|
      ensures stateId == old(stateId) && teamId == old(teamId) && playerId == old(playerId)
      ensures executed == old(executed) + Inserts(old(colorId), ParsedPrefix(lines, parse), ColorRowInsert)
    {
      ghost var rows: seq<ColorLine> := [];
      var i := 0;
      while i < |lines|
        invariant |rows| == i && ParsesTo(lines, parse, rows)
        invariant colorId == old(colorId) + |rows|
        invariant stateId == old(stateId) && teamId == old(teamId) && playerId == old(playerId)
        invariant executed == old(executed) + Inserts(old(colorId), rows, ColorRowInsert)
      {
        var parsed := parse(lines[i]);
        if parsed.None? {
          break;
        }
        var row := parsed.value;
        ParsesToStep(lines, parse, rows, row);
        ghost var log := executed;
        var stmt := AddColor(row.name);
        ColorLogStep(log, old(executed), old(colorId), rows, row, stmt);
        rows := rows + [row];
        i := i + 1;
      }
      ParsedPrefixIs(lines, parse, rows);
    }

    /** `fillTeam`: one `add_team` per line, in order, up to the first line that does not parse. */
    method FillTeam(lines: seq<string>, parse: string -> Option<TeamLine>)
      modifies this
      ensures teamId == old(teamId) + |ParsedPrefix(lines, parse)|
      ensures stateId == old(stateId) && colorId == old(colorId) && playerId == old(playerId)
      ensures executed == old(executed) + Inserts(old(teamId), ParsedPrefix(lines, parse), TeamRowInsert)
    {
      ghost var rows: seq<TeamLine> := [];
      var i := 0;
      while i < |lines|
        invariant |rows| == i && ParsesTo(lines, parse, rows)
        invariant teamId == old(teamId) + |rows|
        invariant stateId == old(stateId) && colorId == old(colorId) && playerId == old(playerId)
        invariant executed == old(executed) + Inserts(old(teamId), rows, TeamRowInsert)
      {
        var parsed := parse(lines[i]);
        if parsed.None? {
          break;
        }
        var row := parsed.value;
        ParsesToStep(lines, parse, rows, row);
        ghost var log := executed;
        var stmt := AddTeam(row.name, row.stateId, row.colorId, row.wins, row.losses);
        TeamLogStep(log, old(executed), old(teamId), rows, row, stmt);
        rows := rows + [row];
        i := i + 1;
      }
      ParsedPrefixIs(lines, parse, rows);
    }

    /** `fillTables` without the player file: states, then colors, then teams. */
    method FillTables(stateLines: seq<string>, parseState: string -> Option<StateLine>,
                      colorLines: seq<string>, parseColor: string -> Option<ColorLine>,
                      teamLines: seq<string>, parseTeam: string -> Option<TeamLine>)
      modifies this
      ensures stateId == old(stateId) + |ParsedPrefix(stateLines, parseState)|
      ensures colorId == old(colorId) + |ParsedPrefix(colorLines, parseColor)|
      ensures teamId == old(teamId) + |ParsedPrefix(teamLines, parseTeam)|
      ensures playerId == old(playerId)
      ensures executed == old(executed)
                          + Inserts(old(stateId), ParsedPrefix(stateLines, parseState), StateRowInsert)
                          + Inserts(old(colorId), ParsedPrefix(colorLines, parseColor), ColorRowInsert)
                          + Inserts(old(teamId), ParsedPrefix(teamLines, parseTeam), TeamRowInsert)
    {
      FillState(stateLines, parseState);
      FillColor(colorLines, parseColor);
      FillTeam(teamLines, parseTeam);
    }
  }

  /**
   * A fresh session hands out id 1 to the first state, color and team rows
   * and 2 to the second state row, and logs the statements in call order.
   */
  method FreshSessionLog(state: string, color: string, team: string, wins: int, losses: int, nextState: string)
    returns (log: seq<string>)
    ensures log == [StateInsert(1, state), ColorInsert(1, color), TeamInsert(1, team, 1, 1, wins, losses), StateInsert(2, nextState)]
  {
    var session := new LoaderSession();
    var stateStmt1 := session.AddState(state);
    var colorStmt := session.AddColor(color);
    var teamStmt := session.AddTeam(team, 1, 1, wins, losses);
    var stateStmt2 := session.AddState(nextState);
    log := session.executed;
  }
}
