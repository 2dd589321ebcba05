/** The asset row as the store keeps it: one record for the `assets` columns and the rows of
    `tags` and `asset_metadata` that belong to it. Timestamp columns are strings. */
module Models {
  import opened Outcomes
  import opened Rfc3339
  import Lexical

  /** A metadata value: a JSON string, or any other JSON value. */
  datatype Json = Text(text: string) | NotText

  datatype Tag = Tag(category: string, value: string)

  datatype AuthContext = AuthContext(
    visibility: string, ownerGroups: seq<string>, confidentiality: string)

  /** What a missing context is taken to be when one is needed. */
  const DEFAULT_CONTEXT := AuthContext("", [], "")

  datatype AssetRow = AssetRow(
    id: string,
    title: string,
    content: Option<string>,
    createdAt: string,
    updatedAt: string,
    createdBy: string,
    deletedAt: Option<string>,
    context: Option<AuthContext>,
    tags: seq<Tag>,
    metadata: map<string, Json>)
  {
    predicate Live() {
      deletedAt.None?
    }

    predicate HasTag(category: string, value: string) {
      exists t :: t in tags && t.category == category && t.value == value
    }

    predicate HasCategory(category: string) {
      exists t :: t in tags && t.category == category
    }
  }

  /** The value of the first tag in a category. */
  function FirstTag(tags: seq<Tag>, category: string): Option<string> {
    if tags == [] then None
    else if tags[0].category == category then Some(tags[0].value)
    else FirstTag(tags[1..], category)
  }

  /** It is the value of a tag of the category before which there is none of it. */
  lemma {:induction false} FirstTagIsFirst(tags: seq<Tag>, category: string)
    ensures
      match FirstTag(tags, category)
      case Some(v) => exists k ::
        && 0 <= k < |tags| && tags[k] == Tag(category, v)
        && forall j :: 0 <= j < k ==> tags[j].category != category
      case None => forall t :: t in tags ==> t.category != category
  {
    if tags == [] {
    } else if tags[0].category == category {
      assert tags[0] == Tag(category, tags[0].value);
    } else {
      var rest := tags[1..];
      FirstTagIsFirst(rest, category);
      assert tags == [tags[0]] + rest;
      if FirstTag(rest, category).Some? {
        var v := FirstTag(rest, category).value;
        var k :|
          && 0 <= k < |rest| && rest[k] == Tag(category, v)
          && forall j :: 0 <= j < k ==> rest[j].category != category;
        assert tags[k + 1] == rest[k];
        assert forall j :: 1 <= j < k + 1 ==> tags[j] == rest[j - 1];
      }
    }
  }

  // ---------- What every asset table satisfies ----------

  ghost predicate IsStamp(s: string) {
    exists i: Instant :: i.Valid() && s == Render(i)
  }

  ghost predicate UniqueIds(rows: seq<AssetRow>) {
    forall i, j :: 0 <= i < j < |rows| ==> rows[i].id != rows[j].id
  }

  /** Ids are a primary key and timestamp columns hold what the service wrote there. */
  ghost predicate WellFormed(rows: seq<AssetRow>) {
    && UniqueIds(rows)
    && forall r :: r in rows ==> IsStamp(r.createdAt) && IsStamp(r.updatedAt)
  }

  /** The clock has not gone back: `now` is no earlier than any stored timestamp. */
  ghost predicate NotBefore(now: Instant, rows: seq<AssetRow>) {
    now.Valid() && forall r :: r in rows ==>
      Lexical.AtMost(r.createdAt, Render(now)) && Lexical.AtMost(r.updatedAt, Render(now))
  }

  /** `Utc::now()`: some instant no earlier than the last one read. */
  class Clock {
    var last: Instant

    ghost predicate Valid()
      reads this
    {
      last.Valid()
    }

    constructor (start: Instant)
      requires start.Valid()
      ensures Valid() && last == start
    {
      last := start;
    }

    method Now() returns (now: Instant)
      requires Valid()
      modifies this
      ensures Valid() && now == last && Nanos(old(last)) <= Nanos(now)
    {
      now :| now.Valid() && Nanos(last) <= Nanos(now);
      last := now;
    }
  }

  /** Instants compare as their stored strings do. */
  lemma StampsFollowClock(i: Instant, j: Instant)
    requires i.Valid() && j.Valid() && Nanos(i) <= Nanos(j)
    ensures Lexical.AtMost(Render(i), Render(j))
  {
    LexicalIsChronological(i, j);
    LexicalIsChronological(j, i);
    Lexical.Total(Render(i), Render(j));
  }

  lemma LaterStillNotBefore(i: Instant, j: Instant, rows: seq<AssetRow>)
    requires NotBefore(i, rows) && j.Valid() && Nanos(i) <= Nanos(j)
    ensures NotBefore(j, rows)
  {
    StampsFollowClock(i, j);
    forall r | r in rows
      ensures Lexical.AtMost(r.createdAt, Render(j)) && Lexical.AtMost(r.updatedAt, Render(j))
    {
      Lexical.AtMostTransitive(r.createdAt, Render(i), Render(j));
      Lexical.AtMostTransitive(r.updatedAt, Render(i), Render(j));
    }
  }
}
