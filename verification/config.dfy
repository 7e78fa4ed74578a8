/**
 * The administrator allow-list of the bot's configuration: the raw
 * `ADMIN_IDS` setting is a comma-separated list of decimal ids.
 */
module Config {
  import opened Text

  /** The ids of the comma-separated pieces whose stripped text is all digits. */
  function TokenIds(pieces: seq<string>): set<int>
  {
    set k | 0 <= k < |pieces| && IsDigitString(Strip(pieces[k])) :: DigitsValue(Strip(pieces[k]))
  }

  /**
   * `ADMIN_IDS` for the raw setting: empty when the stripped setting is
   * empty, otherwise the ids of the digit-only comma-separated tokens.
   */
  function ParseAdminIds(raw: string): (ids: set<int>)
    ensures (forall i :: 0 <= i < |raw| ==> IsSpace(raw[i])) ==> ids == {}
    ensures forall n :: n in ids ==> n >= 0
  {
    StripSpec(raw);
    var admins := Strip(raw);
    if admins != [] then TokenIds(SplitOn(admins, ',')) else {}
  }

  /** Pieces with the same stripped texts give the same ids. */
  lemma TokenIdsPointwise(s: seq<string>, p: seq<string>)
    requires |s| == |p|
    requires forall k :: 0 <= k < |s| ==> Strip(s[k]) == Strip(p[k])
    ensures TokenIds(s) == TokenIds(p)
  {
  }

  /**
   * The outer `.strip()` of the setting and the test for an empty setting
   * never change the result: the administrators are exactly the ids of the
   * digit-only tokens of the raw setting split at every comma.
   */
  lemma ParseAdminIdsOfSplit(raw: string)
    ensures ParseAdminIds(raw) == TokenIds(SplitOn(raw, ','))
  {
    var t := StripLeft(raw);
    var admins := Strip(raw);
    StripLeftSpec(raw);
    StripRightSpec(t);
    StripSpec(raw);
    var left := raw[..|raw| - |t|];
    var right := t[|admins|..];
    assert raw == left + admins + right;
    forall i | 0 <= i < |left| ensures IsSpace(left[i]) {
      assert left[i] == raw[i];
    }
    forall i | 0 <= i < |right| ensures IsSpace(right[i]) {
      assert right[i] == t[|admins| + i];
    }
    if admins == [] {
      AllSpaceSplit(raw);
    } else {
      PaddedSplit(left, admins, right);
    }
  }

  /** A setting made only of whitespace is one token with no digits. */
  lemma AllSpaceSplit(raw: string)
    requires forall i :: 0 <= i < |raw| ==> IsSpace(raw[i])
    ensures TokenIds(SplitOn(raw, ',')) == {}
  {
    forall i | 0 <= i < |raw| ensures raw[i] != ',' {
      assert IsSpace(raw[i]);
    }
    SplitOnJoin([raw], ',');
    assert SplitOn(raw, ',') == [raw];
    StripSpec(raw);
    assert !IsDigitString(Strip([raw][0]));
  }

  /** Whitespace around a stripped setting only pads its first and last tokens. */
  lemma PaddedSplit(left: string, admins: string, right: string)
    requires forall i :: 0 <= i < |left| ==> IsSpace(left[i])
    requires forall i :: 0 <= i < |right| ==> IsSpace(right[i])
    ensures TokenIds(SplitOn(left + admins + right, ',')) == TokenIds(SplitOn(admins, ','))
  {
    forall i | 0 <= i < |left| ensures IsSpace(left[i]) && left[i] != ',' {
      assert IsSpace(left[i]);
    }
    forall i | 0 <= i < |right| ensures IsSpace(right[i]) && right[i] != ',' {
      assert IsSpace(right[i]);
    }
    var pieces := SplitOn(admins, ',');
    var n := |pieces|;
    JoinSplitOn(admins, ',');
    var lastPadded := pieces[..n - 1] + [pieces[n - 1] + right];
    JoinAppendLast(pieces, right, ',');
    var padded := [left + lastPadded[0]] + lastPadded[1..];
    JoinPrependFirst(left, lastPadded, ',');
    assert Join(padded, ',') == left + admins + right;
    forall k | 0 <= k < |padded| ensures ',' !in padded[k] && Strip(padded[k]) == Strip(pieces[k]) {
      PaddedPiece(left, pieces, right, k);
    }
    SplitOnJoin(padded, ',');
    TokenIdsPointwise(padded, pieces);
  }

  /** Each piece of the padded split is a piece of the stripped split with whitespace around it. */
  lemma PaddedPiece(left: string, pieces: seq<string>, right: string, k: nat)
    requires |pieces| >= 1 && k < |pieces|
    requires forall k :: 0 <= k < |pieces| ==> ',' !in pieces[k]
    requires forall i :: 0 <= i < |left| ==> IsSpace(left[i]) && left[i] != ','
    requires forall i :: 0 <= i < |right| ==> IsSpace(right[i]) && right[i] != ','
    ensures var n := |pieces|;
      var padded := [left + (pieces[..n - 1] + [pieces[n - 1] + right])[0]] + (pieces[..n - 1] + [pieces[n - 1] + right])[1..];
      |padded| == n && ',' !in padded[k] && Strip(padded[k]) == Strip(pieces[k])
  {
    var n := |pieces|;
    var lastPadded := pieces[..n - 1] + [pieces[n - 1] + right];
    var padded := [left + lastPadded[0]] + lastPadded[1..];
    assert ',' !in left && ',' !in right;
    var l: string := if k == 0 then left else [];
    var r: string := if k == n - 1 then right else [];
    assert padded[k] == l + pieces[k] + r;
    StripPadded(l, pieces[k], r);
  }

  function DecimalStrings(ids: seq<nat>): (parts: seq<string>)
    ensures |parts| == |ids|
    ensures forall k :: 0 <= k < |ids| ==> parts[k] == NatToString(ids[k])
  {
    if ids == [] then [] else [NatToString(ids[0])] + DecimalStrings(ids[1..])
  }

  /**
   * Writing a list of ids as `1,2,3` and parsing it gives back exactly
   * the set of those ids.
   */
  lemma ParseAdminIdsOfList(ids: seq<nat>)
    requires |ids| >= 1
    ensures ParseAdminIds(Join(DecimalStrings(ids), ',')) == set k | 0 <= k < |ids| :: ids[k] as int
  {
    DecimalPieces(ids);
    JoinedIdsSplit(DecimalStrings(ids));
    TokenIdsOfDecimals(ids);
  }

  lemma DecimalPieces(ids: seq<nat>)
    ensures forall k :: 0 <= k < |ids| ==>
      NoSpace(DecimalStrings(ids)[k]) && ',' !in DecimalStrings(ids)[k] && IsDigitString(DecimalStrings(ids)[k])
  {
    var parts := DecimalStrings(ids);
    forall k | 0 <= k < |parts| ensures NoSpace(parts[k]) && ',' !in parts[k] {
      AllDigitsNoSpace(parts[k]);
      assert forall i :: 0 <= i < |parts[k]| ==> parts[k][i] != ',';
    }
  }

  /** The stripped, split setting built from digit strings is those strings again. */
  lemma JoinedIdsSplit(parts: seq<string>)
    requires |parts| >= 1
    requires forall k :: 0 <= k < |parts| ==> NoSpace(parts[k]) && ',' !in parts[k] && IsDigitString(parts[k])
    ensures ParseAdminIds(Join(parts, ',')) == TokenIds(parts)
  {
    var raw := Join(parts, ',');
    JoinNoSpace(parts, ',');
    StripNoSpace(raw);
    SplitOnJoin(parts, ',');
    assert raw != [];
  }

  lemma TokenIdsOfDecimals(ids: seq<nat>)
    ensures TokenIds(DecimalStrings(ids)) == set k | 0 <= k < |ids| :: ids[k] as int
  {
    var parts := DecimalStrings(ids);
    forall k | 0 <= k < |parts| ensures IsDigitString(Strip(parts[k])) && DigitsValue(Strip(parts[k])) == ids[k] {
      AllDigitsNoSpace(parts[k]);
      StripNoSpace(parts[k]);
      DigitsValueOfNatToString(ids[k]);
    }
    var want := set k | 0 <= k < |ids| :: ids[k] as int;
    forall n | n in TokenIds(parts) ensures n in want {
      var k :| 0 <= k < |parts| && IsDigitString(Strip(parts[k])) && DigitsValue(Strip(parts[k])) == n;
      assert n == ids[k];
    }
    forall n | n in want ensures n in TokenIds(parts) {
      var k :| 0 <= k < |ids| && ids[k] == n;
      assert IsDigitString(Strip(parts[k])) && DigitsValue(Strip(parts[k])) == n;
    }
  }

  /** `" 1, 1 ,2"` yields {1, 2}: spaces around tokens are ignored and duplicates collapse. */
  lemma SpacedDuplicateIds(raw: string)
    requires raw == " 1, 1 ,2"
    ensures ParseAdminIds(raw) == {1, 2}
  {
    var admins := raw[1..];
    assert Strip(raw) == admins by {
      assert IsSpace(raw[0]) && !IsSpace(raw[1]);
      assert StripLeft(raw) == admins;
      StripFixpoint(admins);
    }
    assert admins[1] == ',' && admins[5] == ',';
    var pieces := [admins[..1], admins[2..5], admins[6..]];
    assert admins == pieces[0] + [','] + (pieces[1] + [','] + pieces[2]);
    assert pieces[1..][1..] == [pieces[2]];
    assert Join(pieces[1..], ',') == pieces[1] + [','] + pieces[2];
    assert Join(pieces, ',') == admins;
    SplitOnJoin(pieces, ',');
    assert Strip(pieces[0]) == "1" by {
      StripFixpoint(pieces[0]);
    }
    assert Strip(pieces[1]) == "1" by {
      assert StripLeft(pieces[1]) == pieces[1][1..];
      assert StripRight(pieces[1][1..]) == pieces[1][1..2];
    }
    assert Strip(pieces[2]) == "2" by {
      StripFixpoint(pieces[2]);
    }
    assert DigitsValue("1") == 1 && DigitsValue("2") == 2;
    forall n ensures n in TokenIds(pieces) <==> n in {1, 2} {
      if n == 1 {
        assert IsDigitString(Strip(pieces[0])) && DigitsValue(Strip(pieces[0])) == n;
      }
      if n == 2 {
        assert IsDigitString(Strip(pieces[2])) && DigitsValue(Strip(pieces[2])) == n;
      }
    }
  }

  /** Tokens with a sign or a letter (`-5`, `abc`) add no id. */
  lemma NonDigitTokensIgnored(raw: string)
    requires raw == "-5,abc"
    ensures ParseAdminIds(raw) == {}
  {
    StripFixpoint(raw);
    var pieces := [raw[..2], raw[3..]];
    assert raw == pieces[0] + [','] + pieces[1];
    assert Join(pieces, ',') == raw;
    SplitOnJoin(pieces, ',');
    StripFixpoint(pieces[0]);
    StripFixpoint(pieces[1]);
    assert !IsDigit(pieces[0][0]) && !IsDigit(pieces[1][0]);
  }
}
