/**
 * The reply keyboards of the bot, as rows of button labels, and the fixed
 * list of regions a participant chooses from.
 */
module Keyboards {

  /** A reply keyboard: rows of button labels, top to bottom. */
  type Layout = seq<seq<string>>

  const CTA_JOIN_TEXT: string := "👉 Ishtirok etmoqchiman"
  const BTN_MY_INFO: string := "📄 Ma’lumotlarim"
  const BTN_HELP: string := "ℹ️ Yordam"
  const BTN_ADMIN_LIST: string := "📋 Ro‘yxat (Admin)"
  const BTN_ADMIN_EXPORT: string := "📤 CSV Export (Admin)"
  /** The label of the button that shares the sender's own contact. */
  const BTN_SHARE_PHONE: string := "📞 Telefon raqamimni yuborish"

  const REGIONS: seq<string> := [
    "Toshkent viloyati",
    "Toshkent shahri",
    "Samarqand",
    "Andijon",
    "Farg‘ona",
    "Namangan",
    "Buxoro",
    "Xorazm",
    "Qashqadaryo",
    "Surxondaryo",
    "Jizzax",
    "Sirdaryo",
    "Navoiy",
    "Qoraqalpog‘iston Respublikasi"
  ]

  /** The welcome keyboard: a single row holding the join button and nothing else. */
  function KbWelcome(): (kb: Layout)
    ensures |kb| == 1 && Flatten(kb) == [CTA_JOIN_TEXT]
  {
    [[CTA_JOIN_TEXT]]
  }

  /** The keyboard of a registered participant: "my info" above "help", one button per row. */
  function KbAfterRegistered(): (kb: Layout)
    ensures Flatten(kb) == [BTN_MY_INFO, BTN_HELP]
    ensures forall k :: 0 <= k < |kb| ==> |kb[k]| == 1
  {
    assert Flatten([[BTN_HELP]]) == [BTN_HELP];
    [[BTN_MY_INFO], [BTN_HELP]]
  }

  /** The contact-sharing keyboard: a single row holding the share-my-phone button alone. */
  function KbContactShare(): (kb: Layout)
    ensures |kb| == 1 && Flatten(kb) == [BTN_SHARE_PHONE]
  {
    [[BTN_SHARE_PHONE]]
  }

  /** The administrator's keyboard: the participant's rows, then list, then export. */
  function KbAfterRegisteredAdmin(): (kb: Layout)
    ensures kb == KbAfterRegistered() + [[BTN_ADMIN_LIST], [BTN_ADMIN_EXPORT]]
  {
    [[BTN_MY_INFO], [BTN_HELP], [BTN_ADMIN_LIST], [BTN_ADMIN_EXPORT]]
  }

  /** All labels of a layout, row after row. */
  function Flatten(rows: Layout): seq<string>
  {
    if rows == [] then [] else rows[0] + Flatten(rows[1..])
  }

  lemma {:induction false} FlattenAppend(a: Layout, b: Layout)
    ensures Flatten(a + b) == Flatten(a) + Flatten(b)
  {
    if a == [] {
      assert a + b == b;
    } else {
      assert (a + b)[1..] == a[1..] + b;
      FlattenAppend(a[1..], b);
    }
  }

  /** `items` cut into rows of two, the last row holding the odd one out. */
  function Pairs(items: seq<string>): Layout
  {
    if |items| == 0 then []
    else if |items| <= 2 then [items]
    else [items[..2]] + Pairs(items[2..])
  }

  /**
   * Every row of `Pairs` has one or two labels, all but the last exactly
   * two, there are `ceil(n/2)` rows, and reading them in order gives the
   * items back.
   */
  lemma {:induction false} PairsShape(items: seq<string>)
    ensures Flatten(Pairs(items)) == items
    ensures |Pairs(items)| == (|items| + 1) / 2
    ensures forall k :: 0 <= k < |Pairs(items)| ==> 1 <= |Pairs(items)[k]| <= 2
    ensures forall k :: 0 <= k < |Pairs(items)| - 1 ==> |Pairs(items)[k]| == 2
  {
    if |items| > 2 {
      PairsShape(items[2..]);
      assert items == items[..2] + items[2..];
    } else if |items| > 0 {
      assert Flatten([items]) == items + Flatten([]);
    }
  }

  /** Pairing after a full row of two is that row followed by the pairing of the rest. */
  lemma PairsAfterRow(row: seq<string>, rest: seq<string>)
    requires |row| == 2
    ensures Pairs(row + rest) == [row] + Pairs(rest)
  {
    if rest == [] {
      assert row + rest == row;
    } else {
      assert (row + rest)[..2] == row && (row + rest)[2..] == rest;
    }
  }

  /**
   * The filling loop of the region keyboard: labels go into the current row,
   * and a row that holds two is closed and a new one started.
   */
  method PairRows(items: seq<string>) returns (rows: Layout)
    ensures rows == Pairs(items)
  {
    rows := [];
    var row: seq<string> := [];
    var i := 0;
    assert row + items[i..] == items;
    while i < |items|
      invariant 0 <= i <= |items|
      invariant |row| < 2
      invariant rows + Pairs(row + items[i..]) == Pairs(items)
    {
      assert items[i..] == [items[i]] + items[i + 1..];
      assert row + items[i..] == (row + [items[i]]) + items[i + 1..];
      row := row + [items[i]];
      if |row| == 2 {
        PairsAfterRow(row, items[i + 1..]);
        rows := rows + [row];
        row := [];
        assert row + items[i + 1..] == items[i + 1..];
      }
      i := i + 1;
    }
    assert row + items[i..] == row;
    if row != [] {
      rows := rows + [row];
    }
  }

  /** The region keyboard: the regions two per row, in their listed order. */
  method KbRegions() returns (rows: Layout)
    ensures rows == Pairs(REGIONS)
  {
    rows := PairRows(REGIONS);
  }

  /** An even number of items fills every row. */
  lemma {:induction false} EvenPairsFull(items: seq<string>)
    requires |items| % 2 == 0
    ensures forall k :: 0 <= k < |Pairs(items)| ==> |Pairs(items)[k]| == 2
  {
    if |items| > 2 {
      EvenPairsFull(items[2..]);
    }
  }

  /** With the fourteen regions the keyboard has seven full rows of two. */
  lemma RegionRows()
    ensures |Pairs(REGIONS)| == 7
    ensures Flatten(Pairs(REGIONS)) == REGIONS
    ensures forall k :: 0 <= k < 7 ==> |Pairs(REGIONS)[k]| == 2
  {
    PairsShape(REGIONS);
    EvenPairsFull(REGIONS);
  }

  /** No region is listed twice, so a region picks out one button. */
  lemma RegionsDistinct()
    ensures forall i, j :: 0 <= i < j < |REGIONS| ==> REGIONS[i] != REGIONS[j]
  {
  }
}
