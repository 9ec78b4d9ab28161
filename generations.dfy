/**
 * POST and GET /api/generations: save a generated startup for the signed-in user, and
 * list that user's generations, newest first. The table is a sequence of rows; the
 * database's outcome (an error, the new row's id and timestamp) comes in as parameters.
 */
module Generations {
  import opened Wrappers
  import opened Json
  import opened Records

  const Unauthorized := "Unauthorized"
  const SaveFailed := "Failed to save generation"
  const FetchFailed := "Failed to fetch generations"

  /**
   * A property destructured from the body becomes a column value; an absent property
   * (`undefined`) is dropped when the insert is serialised, so the column holds `null`.
   */
  function Column(v: Value): (c: Value)
    ensures c != Undefined
    ensures v != Undefined ==> c == v
  {
    if v.Undefined? then Null else v
  }

  /** The body fields the insert reads. */
  const ColumnFields: set<string> := {
    "ideaInput", "startupName", "tagline", "description",
    "targetAudience", "keyFeatures", "colorScheme", "landingPageHtml"}

  /** The camelCase body fields to the snake_case columns; every other key is dropped. */
  function ToColumns(body: Value): (cols: Columns)
    requires !IsNullish(body)
  {
    Columns(
      Column(Prop(body, "ideaInput")),
      Column(Prop(body, "startupName")),
      Column(Prop(body, "tagline")),
      Column(Prop(body, "description")),
      Column(Prop(body, "targetAudience")),
      Column(Prop(body, "keyFeatures")),
      Column(Prop(body, "colorScheme")),
      Column(Prop(body, "landingPageHtml")))
  }

  /** The body a client would send for these columns. */
  function BodyOf(cols: Columns): (body: Value)
    ensures body.Obj? && body.fields.Keys == ColumnFields
  {
    Obj(map[
      "ideaInput" := cols.ideaInput,
      "startupName" := cols.startupName,
      "tagline" := cols.tagline,
      "description" := cols.description,
      "targetAudience" := cols.targetAudience,
      "keyFeatures" := cols.keyFeatures,
      "colorScheme" := cols.colorScheme,
      "landingPageHtml" := cols.landingPageHtml])
  }

  predicate Defined(cols: Columns)
  {
    cols.ideaInput != Undefined && cols.startupName != Undefined && cols.tagline != Undefined
    && cols.description != Undefined && cols.targetAudience != Undefined && cols.keyFeatures != Undefined
    && cols.colorScheme != Undefined && cols.landingPageHtml != Undefined
  }

  /** The first four fields of the body are the columns. */
  lemma BodyOfLeadFields(cols: Columns)
    ensures Prop(BodyOf(cols), "ideaInput") == cols.ideaInput
    ensures Prop(BodyOf(cols), "startupName") == cols.startupName
    ensures Prop(BodyOf(cols), "tagline") == cols.tagline
    ensures Prop(BodyOf(cols), "description") == cols.description
  {
  }

  /** The last four fields of the body are the columns. */
  lemma BodyOfTrailFields(cols: Columns)
    ensures Prop(BodyOf(cols), "targetAudience") == cols.targetAudience
    ensures Prop(BodyOf(cols), "keyFeatures") == cols.keyFeatures
    ensures Prop(BodyOf(cols), "colorScheme") == cols.colorScheme
    ensures Prop(BodyOf(cols), "landingPageHtml") == cols.landingPageHtml
  {
  }

  /** Each field is stored unchanged under its column: mapping a client body back gives the columns again. */
  lemma ColumnsRoundTrip(cols: Columns)
    requires Defined(cols)
    ensures ToColumns(BodyOf(cols)) == cols
  {
    BodyOfLeadFields(cols);
    BodyOfTrailFields(cols);
  }

  /** Only the eight known keys matter: a `userId`, or any other extra key, changes nothing. */
  lemma ExtraKeysIgnored(fields: map<string, Value>, key: string, v: Value)
    requires key !in ColumnFields
    ensures ToColumns(Obj(fields[key := v])) == ToColumns(Obj(fields))
  {
  }

  /** The rows a user owns, in table order. */
  function Owned(rows: seq<Row>, uid: string): (r: seq<Row>)
    ensures |r| <= |rows|
    ensures forall i :: 0 <= i < |r| ==> r[i].userId == uid
  {
    if rows == [] then []
    else if rows[0].userId == uid then [rows[0]] + Owned(rows[1..], uid)
    else Owned(rows[1..], uid)
  }

  /** A row is listed for `uid` exactly when it is in the table and belongs to `uid`. */
  lemma {:induction false} OwnedIff(rows: seq<Row>, uid: string, r: Row)
    ensures r in Owned(rows, uid) <==> r in rows && r.userId == uid
  {
    if rows != [] {
      OwnedIff(rows[1..], uid, r);
      assert rows == [rows[0]] + rows[1..];
    }
  }

  /** Owner filtering distributes over appending rows. */
  lemma {:induction false} OwnedAppend(a: seq<Row>, b: seq<Row>, uid: string)
    ensures Owned(a + b, uid) == Owned(a, uid) + Owned(b, uid)
  {
    if a != [] {
      assert (a + b)[1..] == a[1..] + b;
      OwnedAppend(a[1..], b, uid);
    } else {
      assert a + b == b;
    }
  }

  predicate SortedDesc(rs: seq<Row>)
  {
    forall i, j :: 0 <= i < j < |rs| ==> rs[i].createdAt >= rs[j].createdAt
  }

  /** Places `r` after every row at least as new as it. */
  function InsertDesc(r: Row, rs: seq<Row>): (out: seq<Row>)
    ensures |out| == |rs| + 1
  {
    if rs == [] || rs[0].createdAt < r.createdAt then [r] + rs
    else [rs[0]] + InsertDesc(r, rs[1..])
  }

  /** `ORDER BY created_at DESC`. */
  function SortDesc(rs: seq<Row>): (out: seq<Row>)
    ensures |out| == |rs|
  {
    if rs == [] then [] else InsertDesc(rs[0], SortDesc(rs[1..]))
  }

  predicate AtMost(rs: seq<Row>, c: int)
  {
    forall k :: 0 <= k < |rs| ==> rs[k].createdAt <= c
  }

  lemma SortedCons(x: Row, t: seq<Row>)
    requires SortedDesc(t) && AtMost(t, x.createdAt)
    ensures SortedDesc([x] + t)
  {
    var out := [x] + t;
    forall i, j | 0 <= i < j < |out| ensures out[i].createdAt >= out[j].createdAt {
      assert out[j] == t[j - 1];
      if i > 0 {
        assert out[i] == t[i - 1];
      }
    }
  }

  lemma {:induction false} InsertDescBound(r: Row, rs: seq<Row>, c: int)
    requires AtMost(rs, c) && r.createdAt <= c
    ensures AtMost(InsertDesc(r, rs), c)
  {
    if rs != [] && rs[0].createdAt >= r.createdAt {
      InsertDescBound(r, rs[1..], c);
      var out := InsertDesc(r, rs);
      assert out == [rs[0]] + InsertDesc(r, rs[1..]);
      forall k | 0 <= k < |out| ensures out[k].createdAt <= c {
        if k > 0 {
          assert out[k] == InsertDesc(r, rs[1..])[k - 1];
        }
      }
    } else {
      var out := [r] + rs;
      forall k | 0 <= k < |out| ensures out[k].createdAt <= c {
        if k > 0 {
          assert out[k] == rs[k - 1];
        }
      }
    }
  }

  lemma {:induction false} InsertDescSorted(r: Row, rs: seq<Row>)
    requires SortedDesc(rs)
    ensures SortedDesc(InsertDesc(r, rs))
  {
    if rs == [] || rs[0].createdAt < r.createdAt {
      SortedCons(r, rs);
    } else {
      var t := rs[1..];
      assert SortedDesc(t) by {
        forall i, j | 0 <= i < j < |t| ensures t[i].createdAt >= t[j].createdAt {
          assert t[i] == rs[i + 1] && t[j] == rs[j + 1];
        }
      }
      assert AtMost(t, rs[0].createdAt) by {
        forall k | 0 <= k < |t| ensures t[k].createdAt <= rs[0].createdAt {
          assert t[k] == rs[k + 1];
        }
      }
      InsertDescSorted(r, t);
      InsertDescBound(r, t, rs[0].createdAt);
      SortedCons(rs[0], InsertDesc(r, t));
    }
  }

  lemma {:induction false} InsertDescMultiset(r: Row, rs: seq<Row>)
    ensures multiset(InsertDesc(r, rs)) == multiset([r]) + multiset(rs)
  {
    if rs != [] && rs[0].createdAt >= r.createdAt {
      InsertDescMultiset(r, rs[1..]);
      assert rs == [rs[0]] + rs[1..];
    }
  }

  /** The listing order is newest first and lists every row exactly as often as the input does. */
  lemma {:induction false} SortDescProps(rs: seq<Row>)
    ensures SortedDesc(SortDesc(rs))
    ensures multiset(SortDesc(rs)) == multiset(rs)
  {
    if rs != [] {
      SortDescProps(rs[1..]);
      InsertDescSorted(rs[0], SortDesc(rs[1..]));
      InsertDescMultiset(rs[0], SortDesc(rs[1..]));
      assert rs == [rs[0]] + rs[1..];
    }
  }

  /** The `generations` table. */
  class Table {
    var rows: seq<Row>

    constructor (initial: seq<Row>)
      ensures rows == initial
    {
      rows := initial;
    }

    /**
     * POST /api/generations. `user` is the session user, `body` what `request.json()` gave;
     * `dbError`, `id` and `createdAt` are the insert's outcome.
     */
    method Post(user: Option<string>, body: ParseResult, dbError: bool, id: string, createdAt: int)
      returns (resp: Response)
      modifies this
      ensures user.None? ==> resp == Response(401, ErrorBody(Unauthorized)) && rows == old(rows)
      ensures user.Some? && body.Parsed? && !IsNullish(body.value) && !dbError ==>
        var row := Row(id, user.value, createdAt, ToColumns(body.value));
        rows == old(rows) + [row] && resp == Response(200, RowJson(row))
      ensures user.Some? && !(body.Parsed? && !IsNullish(body.value) && !dbError) ==>
        rows == old(rows) && resp == Response(500, ErrorBody(SaveFailed))
    {
      if user.None? {
        return Response(401, ErrorBody(Unauthorized));
      }
      if body.SyntaxError? || IsNullish(body.value) || dbError {
        return Response(500, ErrorBody(SaveFailed));
      }
      var row := Row(id, user.value, createdAt, ToColumns(body.value));
      rows := rows + [row];
      resp := Response(200, RowJson(row));
    }

    /** GET /api/generations: the caller's rows, newest first. */
    method List(user: Option<string>, dbError: bool) returns (resp: Response, listed: seq<Row>)
      ensures user.None? ==> resp == Response(401, ErrorBody(Unauthorized)) && listed == []
      ensures user.Some? && dbError ==> resp == Response(500, ErrorBody(FetchFailed)) && listed == []
      ensures user.Some? && !dbError ==>
        && multiset(listed) == multiset(Owned(rows, user.value))
        && SortedDesc(listed)
        && (forall r :: r in listed <==> r in rows && r.userId == user.value)
        && resp.status == 200 && resp.body == Arr(seq(|listed|, i requires 0 <= i < |listed| => RowJson(listed[i])))
    {
      if user.None? {
        return Response(401, ErrorBody(Unauthorized)), [];
      }
      if dbError {
        return Response(500, ErrorBody(FetchFailed)), [];
      }
      var owned := Owned(rows, user.value);
      listed := SortDesc(owned);
      SortDescProps(owned);
      forall r ensures r in listed <==> r in rows && r.userId == user.value {
        OwnedIff(rows, user.value, r);
        assert r in listed <==> r in multiset(listed);
        assert r in owned <==> r in multiset(owned);
      }
      resp := Response(200, Arr(seq(|listed|, i requires 0 <= i < |listed| => RowJson(listed[i]))));
    }
  }

  /** A saved generation shows up in its owner's listing and in no one else's. */
  lemma SavedRowIsListed(rows: seq<Row>, row: Row, uid: string)
    ensures row in Owned(rows + [row], uid) <==> row.userId == uid
    ensures row.userId != uid ==> Owned(rows + [row], uid) == Owned(rows, uid)
  {
    OwnedIff(rows + [row], uid, row);
    OwnedAppend(rows, [row], uid);
    assert Owned([row], uid) == (if row.userId == uid then [row] else []);
  }
}
