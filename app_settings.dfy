/**
 * load_app_config: the bot token and the comma-separated admin ids, read from
 * the environment (BOT_TOKEN and ADMIN_IDS, "" when unset).
 */
module AppSettings {
  import opened Wrappers
  import Text

  datatype AppConfig = AppConfig(token: string, adminIds: set<int>)

  datatype StartupError =
    | MissingToken                  // RuntimeError("BOT_TOKEN is missing in environment")
    | InvalidAdminId(part: string)  // ValueError raised by int(part)

  /** The comma-separated fields of ADMIN_IDS once stripped; none when it is blank. */
  function AdminParts(adminRaw: string): (parts: seq<string>)
    ensures parts == [] <==> Text.Strip(adminRaw) == ""
    ensures parts != [] ==> Text.Join(parts, ',') == Text.Strip(adminRaw)
    ensures forall i :: 0 <= i < |parts| ==> ',' !in parts[i]
  {
    var raw := Text.Strip(adminRaw);
    Text.JoinSplit(raw, ',');
    if raw == "" then [] else Text.Split(raw, ',')
  }

  /** What one field contributes: None when it is blank, else int() of it (None inside when that raises). */
  function FieldValue(part: string): (r: Option<Option<int>>)
    ensures r.None? <==> Text.Strip(part) == ""
    ensures r.Some? ==> r.value == Text.IntOfText(part)
  {
    var p := Text.Strip(part);
    if p == "" then None
    else
      Text.StripKeepsTrimmed(p);
      Some(Text.IntOfText(p))
  }

  /** Every non-blank field is an integer. */
  predicate AllIdsParse(parts: seq<string>)
  {
    forall i :: 0 <= i < |parts| ==> FieldValue(parts[i]) != Some(None)
  }

  /** `x` is the value of some non-blank field. */
  ghost predicate Listed(parts: seq<string>, x: int)
  {
    exists i :: 0 <= i < |parts| && FieldValue(parts[i]) == Some(Some(x))
  }

  /**
   * The admin_ids loop run over the first fields: the ids collected so far,
   * or the first non-blank field int() rejects.
   */
  function ParseFields(parts: seq<string>): (r: Result<set<int>, string>)
    ensures r.Failure? ==> r.error != "" && Text.IntOfText(r.error) == None
  {
    if parts == [] then Success({})
    else
      var last := parts[|parts| - 1];
      match ParseFields(parts[..|parts| - 1])
      case Failure(bad) => Failure(bad)
      case Success(ids) =>
        match FieldValue(last)
        case None => Success(ids)
        case Some(None) => Failure(Text.Strip(last))
        case Some(Some(x)) => Success(ids + {x})
  }

  /** The loop succeeds exactly when every non-blank field is an integer. */
  lemma {:induction false} ParseFieldsSucceeds(parts: seq<string>)
    ensures ParseFields(parts).Success? <==> AllIdsParse(parts)
  {
    if parts != [] {
      var front := parts[..|parts| - 1];
      ParseFieldsSucceeds(front);
      AllIdsParseByLast(parts);
    }
  }

  /** Every field parses exactly when all but the last do and the last does too. */
  lemma AllIdsParseByLast(parts: seq<string>)
    requires parts != []
    ensures AllIdsParse(parts) <==>
              AllIdsParse(parts[..|parts| - 1]) && FieldValue(parts[|parts| - 1]) != Some(None)
  {
    var front := parts[..|parts| - 1];
    assert forall i :: 0 <= i < |front| ==> front[i] == parts[i];
  }

  /** On success every id collected comes from some field. */
  lemma {:induction false} CollectedAreListed(parts: seq<string>, x: int)
    requires ParseFields(parts).Success? && x in ParseFields(parts).value
    ensures Listed(parts, x)
  {
    var front := parts[..|parts| - 1];
    var last := parts[|parts| - 1];
    if x in ParseFields(front).value {
      CollectedAreListed(front, x);
      var j :| 0 <= j < |front| && FieldValue(front[j]) == Some(Some(x));
      assert parts[j] == front[j];
    } else {
      assert FieldValue(last) == Some(Some(x));
    }
  }

  /** On success every field's id is collected. */
  lemma {:induction false} ListedAreCollected(parts: seq<string>, j: int)
    requires ParseFields(parts).Success? && 0 <= j < |parts| && FieldValue(parts[j]).Some?
    ensures FieldValue(parts[j]).value.Some? && FieldValue(parts[j]).value.value in ParseFields(parts).value
  {
    var front := parts[..|parts| - 1];
    if j < |front| {
      assert front[j] == parts[j];
      ListedAreCollected(front, j);
    }
  }

  /** On success the set holds exactly the values of the fields. */
  lemma ParseFieldsMembers(parts: seq<string>, x: int)
    requires ParseFields(parts).Success?
    ensures x in ParseFields(parts).value <==> Listed(parts, x)
  {
    if x in ParseFields(parts).value {
      CollectedAreListed(parts, x);
    }
    if Listed(parts, x) {
      var j :| 0 <= j < |parts| && FieldValue(parts[j]) == Some(Some(x));
      ListedAreCollected(parts, j);
    }
  }

  /** On failure the error is the first field int() rejects, stripped. */
  lemma {:induction false} ParseFieldsFailure(parts: seq<string>)
    requires ParseFields(parts).Failure?
    ensures exists i :: 0 <= i < |parts| && ParseFields(parts).error == Text.Strip(parts[i])
                        && FieldValue(parts[i]) == Some(None)
                        && AllIdsParse(parts[..i])
  {
    var front := parts[..|parts| - 1];
    if ParseFields(front).Failure? {
      ParseFieldsFailure(front);
      var i :| 0 <= i < |front| && ParseFields(front).error == Text.Strip(front[i])
               && FieldValue(front[i]) == Some(None) && AllIdsParse(front[..i]);
      assert front[..i] == parts[..i];
    } else {
      ParseFieldsSucceeds(front);
      assert parts[..|parts| - 1] == front;
    }
  }

  /** The admin_ids loop over the fields of ADMIN_IDS. */
  method ParseAdminIds(parts: seq<string>) returns (r: Result<set<int>, string>)
    ensures r == ParseFields(parts)
    ensures r.Success? <==> AllIdsParse(parts)
    ensures r.Success? ==> forall x :: x in r.value <==> Listed(parts, x)
  {
    var ids: set<int> := {};
    var i := 0;
    while i < |parts|
      invariant 0 <= i <= |parts|
      invariant ParseFields(parts[..i]) == Success(ids)
    {
      assert parts[..i + 1][..i] == parts[..i];
      var part := Text.Strip(parts[i]);
      if part != "" {
        var n := Text.IntOfText(part);
        if n.None? {
          r := Failure(part);
          FailureSticks(parts, i + 1);
          ParseFieldsSucceeds(parts);
          return;
        }
        ids := ids + {n.value};
      }
      i := i + 1;
    }
    assert parts[..i] == parts;
    r := Success(ids);
    ParseFieldsSucceeds(parts);
    forall x ensures x in r.value <==> Listed(parts, x) {
      ParseFieldsMembers(parts, x);
    }
  }

  /** Once the loop has failed, later fields do not change the outcome. */
  lemma {:induction false} FailureSticks(parts: seq<string>, n: int)
    requires 0 <= n <= |parts| && ParseFields(parts[..n]).Failure?
    ensures ParseFields(parts) == ParseFields(parts[..n])
  {
    if n < |parts| {
      assert parts[..|parts| - 1][..n] == parts[..n];
      FailureSticks(parts[..|parts| - 1], n);
    } else {
      assert parts[..n] == parts;
    }
  }

  /** load_app_config */
  method LoadAppConfig(tokenEnv: string, adminEnv: string) returns (r: Result<AppConfig, StartupError>)
    ensures r == Failure(MissingToken) <==> Text.Strip(tokenEnv) == ""
    ensures r.Success? <==> Text.Strip(tokenEnv) != "" && ParseFields(AdminParts(adminEnv)).Success?
    ensures r.Success? ==> r.value == AppConfig(Text.Strip(tokenEnv), ParseFields(AdminParts(adminEnv)).value)
    ensures r.Failure? && r.error.InvalidAdminId? ==> r.error.part == ParseFields(AdminParts(adminEnv)).error
  {
    var token := Text.Strip(tokenEnv);
    if token == "" {
      return Failure(MissingToken);
    }
    var ids := ParseAdminIds(AdminParts(adminEnv));
    match ids
    case Failure(part) => r := Failure(InvalidAdminId(part));
    case Success(adminIds) => r := Success(AppConfig(token, adminIds));
  }

  /** ADMIN_IDS written as the decimals of a list of ids joined by commas. */
  function Decimals(ids: seq<int>): (parts: seq<string>)
    ensures |parts| == |ids|
  {
    if ids == [] then [] else [Text.IntToDecimal(ids[0])] + Decimals(ids[1..])
  }

  lemma {:induction false} DecimalsAt(ids: seq<int>, i: int)
    requires 0 <= i < |ids|
    ensures Decimals(ids)[i] == Text.IntToDecimal(ids[i])
  {
    if i > 0 {
      DecimalsAt(ids[1..], i - 1);
    }
  }

  lemma {:induction false} JoinedEnds(parts: seq<string>, sep: char)
    requires |parts| > 0
    requires forall i :: 0 <= i < |parts| ==> |parts[i]| > 0
    ensures var s := Text.Join(parts, sep);
            |s| > 0 && s[0] == parts[0][0] && s[|s| - 1] == parts[|parts| - 1][|parts[|parts| - 1]| - 1]
  {
    if |parts| > 1 {
      JoinedEnds(parts[1..], sep);
    }
  }

  /** A printed id is non-empty, has no comma and no blank at either end. */
  lemma PrintedFieldShape(id: int)
    ensures var s := Text.IntToDecimal(id);
            && ',' !in s && |s| > 0
            && !Text.IsSpace(s[0]) && !Text.IsSpace(s[|s| - 1])
  {
    var s := Text.IntToDecimal(id);
    Text.DecimalShape(id);
    assert forall k :: 0 <= k < |s| ==> s[k] != ',';
  }

  /** A printed id, as a field, reads back as the id. */
  lemma PrintedFieldValue(id: int)
    ensures FieldValue(Text.IntToDecimal(id)) == Some(Some(id))
  {
    PrintedFieldShape(id);
    Text.IntRoundTrip(id);
    Text.StripKeepsTrimmed(Text.IntToDecimal(id));
  }

  /** Non-empty fields without commas, the first and last not blank at the joined ends, are what ADMIN_IDS splits back into. */
  lemma JoinedFieldsSplit(parts: seq<string>)
    requires |parts| > 0
    requires forall i :: 0 <= i < |parts| ==> ',' !in parts[i] && |parts[i]| > 0
    requires !Text.IsSpace(parts[0][0]) && !Text.IsSpace(parts[|parts| - 1][|parts[|parts| - 1]| - 1])
    ensures AdminParts(Text.Join(parts, ',')) == parts
  {
    var raw := Text.Join(parts, ',');
    JoinedEnds(parts, ',');
    Text.StripKeepsTrimmed(raw);
    Text.SplitJoin(parts, ',');
  }

  /** The fields of comma-joined printed ids are those printed ids. */
  lemma PrintedFieldsSplit(ids: seq<int>)
    ensures AdminParts(Text.Join(Decimals(ids), ',')) == Decimals(ids)
  {
    if ids == [] {
      assert Text.Join(Decimals(ids), ',') == "";
      return;
    }
    var parts := Decimals(ids);
    forall i | 0 <= i < |parts|
      ensures ',' !in parts[i] && |parts[i]| > 0
      ensures !Text.IsSpace(parts[i][0]) && !Text.IsSpace(parts[i][|parts[i]| - 1])
    {
      DecimalsAt(ids, i);
      PrintedFieldShape(ids[i]);
    }
    JoinedFieldsSplit(parts);
  }

  /** Reading back a printed, comma-joined list of ids gives exactly those ids; an empty list is ADMIN_IDS unset. */
  lemma AdminIdsRoundTrip(ids: seq<int>)
    ensures AdminParts(Text.Join(Decimals(ids), ',')) == Decimals(ids)
    ensures AllIdsParse(Decimals(ids))
    ensures forall x :: Listed(Decimals(ids), x) <==> x in ids
  {
    PrintedFieldsSplit(ids);
    var parts := Decimals(ids);
    forall i | 0 <= i < |parts|
      ensures FieldValue(parts[i]) == Some(Some(ids[i]))
    {
      DecimalsAt(ids, i);
      PrintedFieldValue(ids[i]);
    }
    forall x ensures Listed(parts, x) <==> x in ids {
      if x in ids {
        var i :| 0 <= i < |ids| && ids[i] == x;
        assert FieldValue(parts[i]) == Some(Some(x));
      }
    }
  }
}
