/**
 * The registration dialogue of the bot: the input rules for names and
 * phones, the administrator test, and the conversation handlers that move
 * a participant through name, phone and region and write the ledger.
 */
module Bot {
  import opened Wrappers
  import opened Text
  import opened Config
  import opened Keyboards
  import opened Storage

  // ---------------------------------------------------------------- input rules

  /** `_normalize_phone`: only the digits of the phone, in order (`None` arrives as ""). */
  function NormalizePhone(phone: string): (r: string)
    ensures AllDigits(r)
    ensures r == KeepDigits(phone)
  {
    AllDigitsNoSpace(KeepDigits(phone));
    StripNoSpace(KeepDigits(phone));
    Strip(KeepDigits(phone))
  }

  /** Normalising twice is normalising once. */
  lemma NormalizePhoneIdempotent(phone: string)
    ensures NormalizePhone(NormalizePhone(phone)) == NormalizePhone(phone)
  {
    KeepDigitsOfDigits(NormalizePhone(phone));
  }

  /**
   * Normalisation works character by character: a digit is kept, anything
   * else is dropped, and the pieces of a string are normalised separately.
   */
  lemma NormalizePhoneByCharacter(s: string, t: string, c: char)
    ensures NormalizePhone(s + t) == NormalizePhone(s) + NormalizePhone(t)
    ensures NormalizePhone([c]) == if IsDigit(c) then [c] else []
  {
    KeepDigitsAppend(s, t);
  }

  /** A separator followed by a run of digits normalises to the digits. */
  lemma KeepDigitsOfGroup(g: string)
    requires g != [] && !IsDigit(g[0]) && AllDigits(g[1..])
    ensures KeepDigits(g) == g[1..]
  {
    KeepDigitsOfDigits(g[1..]);
  }

  /** Normalising separator-and-digits groups keeps the digits of each group, in order. */
  lemma {:induction false} KeepDigitsOfGroups(g1: string, g2: string, g3: string, g4: string, g5: string)
    requires g1 != [] && !IsDigit(g1[0]) && AllDigits(g1[1..])
    requires g2 != [] && !IsDigit(g2[0]) && AllDigits(g2[1..])
    requires g3 != [] && !IsDigit(g3[0]) && AllDigits(g3[1..])
    requires g4 != [] && !IsDigit(g4[0]) && AllDigits(g4[1..])
    requires g5 != [] && !IsDigit(g5[0]) && AllDigits(g5[1..])
    ensures KeepDigits(g1 + g2 + g3 + g4 + g5) == g1[1..] + g2[1..] + g3[1..] + g4[1..] + g5[1..]
  {
    KeepDigitsAppend(g1 + g2 + g3 + g4, g5);
    KeepDigitsAppend(g1 + g2 + g3, g4);
    KeepDigitsAppend(g1 + g2, g3);
    KeepDigitsAppend(g1, g2);
    KeepDigitsOfGroup(g1);
    KeepDigitsOfGroup(g2);
    KeepDigitsOfGroup(g3);
    KeepDigitsOfGroup(g4);
    KeepDigitsOfGroup(g5);
  }

  /**
   * `"+998 93-123-45-67"` normalises to `"998931234567"`: each of its five
   * groups is a separator (`+`, space, dash) followed by digits.
   */
  lemma NormalizePhoneExample(phone: string)
    requires phone == "+998 93-123-45-67"
    ensures NormalizePhone(phone) == "998931234567"
  {
    var g1, g2, g3, g4, g5 := phone[..4], phone[4..7], phone[7..11], phone[11..14], phone[14..];
    assert phone == g1 + g2 + g3 + g4 + g5;
    assert g1 == "+998" && g2 == " 93" && g3 == "-123" && g4 == "-45" && g5 == "-67";
    KeepDigitsOfGroups(g1, g2, g3, g4, g5);
    assert g1[1..] + g2[1..] + g3[1..] + g4[1..] + g5[1..] == "998931234567";
  }

  /** The leading run of non-whitespace characters. */
  function TakeWord(s: string): (w: string)
    ensures |w| <= |s|
  {
    if s == [] || IsSpace(s[0]) then [] else [s[0]] + TakeWord(s[1..])
  }

  /** The non-empty whitespace-separated tokens (`[p for p in re.split(r"\s+", s) if p]`). */
  function Words(s: string): (ws: seq<string>)
    ensures forall k :: 0 <= k < |ws| ==> ws[k] != [] && NoSpace(ws[k])
    decreases |s|
  {
    if s == [] then []
    else if IsSpace(s[0]) then Words(s[1..])
    else
      var w := TakeWord(s);
      TakeWordSpec(s);
      [w] + Words(s[|w|..])
  }

  lemma {:induction false} TakeWordSpec(s: string)
    ensures TakeWord(s) == s[..|TakeWord(s)|] && NoSpace(TakeWord(s))
    ensures |TakeWord(s)| < |s| ==> IsSpace(s[|TakeWord(s)|])
    ensures NoSpace(s) ==> TakeWord(s) == s
  {
    if s != [] && !IsSpace(s[0]) {
      TakeWordSpec(s[1..]);
    }
  }

  /** A string with a non-whitespace character has at least one token. */
  lemma {:induction false} WordsNotEmpty(s: string, k: nat)
    requires k < |s| && !IsSpace(s[k])
    ensures Words(s) != []
  {
    if IsSpace(s[0]) {
      WordsNotEmpty(s[1..], k - 1);
    }
  }

  /**
   * A stripped, non-empty string has two or more tokens exactly when it
   * contains whitespace.
   */
  lemma TwoWordsIffSpace(t: string)
    requires t != [] && !IsSpace(t[0]) && !IsSpace(t[|t| - 1])
    ensures |Words(t)| >= 2 <==> exists i :: 0 <= i < |t| && IsSpace(t[i])
  {
    var w := TakeWord(t);
    TakeWordSpec(t);
    assert Words(t) == [w] + Words(t[|w|..]);
    if i :| 0 <= i < |t| && IsSpace(t[i]) {
      forall j | 0 <= j < |w| ensures !IsSpace(t[j]) {
        assert w[j] == t[j];
      }
      assert |w| <= i;
      WordsNotEmpty(t[|w|..], |t| - 1 - |w|);
    } else {
      assert w == t && t[|w|..] == [];
    }
  }

  /** `_is_valid_full_name`: a non-empty text whose stripped form has two tokens and five characters. */
  predicate IsValidFullName(text: string)
  {
    text != [] && |Words(Strip(text))| >= 2 && |Strip(text)| >= 5
  }

  /**
   * A name is valid exactly when the text is non-empty and its stripped
   * form is at least five characters long and contains whitespace.
   */
  lemma ValidFullNameSpec(text: string)
    ensures IsValidFullName(text) <==>
      text != [] && |Strip(text)| >= 5 && exists i :: 0 <= i < |Strip(text)| && IsSpace(Strip(text)[i])
  {
    StripSpec(text);
    if Strip(text) != [] {
      TwoWordsIffSpace(Strip(text));
    }
  }

  /** "Aliyev Sardor", the example the bot itself gives, is a valid name. */
  lemma TwoWordNameValid(name: string)
    requires name == "Aliyev Sardor"
    ensures IsValidFullName(name)
  {
    assert !IsSpace(name[0]) && !IsSpace(name[12]);
    StripFixpoint(name);
    ValidFullNameSpec(name);
    assert IsSpace(name[6]);
  }

  /** A single word, that is a text whose stripped form has no whitespace, is never a valid name. */
  lemma OneWordNameInvalid(name: string)
    requires NoSpace(Strip(name))
    ensures !IsValidFullName(name)
  {
    ValidFullNameSpec(name);
  }

  /** Two tokens are not enough when the stripped name is shorter than five characters. */
  lemma ShortNameInvalid(name: string)
    requires name == " A B "
    ensures !IsValidFullName(name)
  {
    assert IsSpace(name[0]) && !IsSpace(name[1]);
    assert StripLeft(name) == name[1..];
    assert IsSpace(name[4]) && !IsSpace(name[3]);
    assert StripRight(name[1..]) == name[1..4];
  }

  /** `_is_admin`. */
  predicate IsAdmin(userId: int, adminIds: set<int>)
  {
    userId in adminIds
  }

  /** `_kb_after_registered_for`: administrators get the two extra admin rows. */
  function KbAfterRegisteredFor(userId: int, adminIds: set<int>): (kb: Layout)
    ensures kb == KbAfterRegistered() + (if IsAdmin(userId, adminIds) then [[BTN_ADMIN_LIST], [BTN_ADMIN_EXPORT]] else [])
    ensures |kb| == 4 <==> IsAdmin(userId, adminIds)
  {
    if IsAdmin(userId, adminIds) then KbAfterRegisteredAdmin() else KbAfterRegistered()
  }

  /**
   * With `ADMIN_IDS` written as a comma-separated list of ids, exactly the
   * listed users are administrators and get the administrator keyboard.
   */
  lemma AdminsOfListedIds(ids: seq<nat>, userId: int)
    requires |ids| >= 1
    ensures IsAdmin(userId, ParseAdminIds(Join(DecimalStrings(ids), ','))) <==> exists k :: 0 <= k < |ids| && ids[k] == userId
    ensures KbAfterRegisteredFor(userId, ParseAdminIds(Join(DecimalStrings(ids), ','))) == KbAfterRegisteredAdmin()
        <==> exists k :: 0 <= k < |ids| && ids[k] == userId
  {
    ParseAdminIdsOfList(ids);
    var admins := ParseAdminIds(Join(DecimalStrings(ids), ','));
    if exists k :: 0 <= k < |ids| && ids[k] == userId {
      var k :| 0 <= k < |ids| && ids[k] == userId;
      assert ids[k] as int in admins;
    }
  }

  // ---------------------------------------------------------------- dialogue

  /** The conversation states: the three questions and the end of the conversation. */
  datatype ConvState = StateName | StatePhone | StateRegion | End

  /** A shared contact: its phone number and, when Telegram knows it, the owner's user id. */
  datatype Contact = Contact(phoneNumber: string, userId: Option<int>)

  /** An incoming message: its text ("" when it has none) and an optional shared contact. */
  datatype Message = Message(text: string, contact: Option<Contact>)

  /** What the bot answers, by kind. */
  datatype Reply =
    | AlreadyRegistered    // "you are already registered"
    | AskFullName          // "enter your first and last name"
    | InvalidName          // "the name needs at least two words"
    | AskPhone             // "send your phone with the button"
    | ContactButtonOnly    // "send the phone only with the button"
    | OwnPhoneOnly         // "send your own phone"
    | PhoneNotRecognised   // "the phone number was not recognised"
    | PhoneAlreadyTaken    // "this phone number is already registered"
    | AskRegion            // "choose your region"
    | RegionFromListOnly   // "choose the region only from the list"
    | Confirmation         // "thank you, your data was received"
    | Cancelled            // "cancelled"

  /** The keyboard sent with a reply: none given (the current one stays), removed, or a layout. */
  datatype Markup = KeepKeyboard | RemoveKeyboard | Show(rows: Layout)

  /** A handler either returns the next state and its answer, or lets a ledger error escape. */
  datatype Outcome = Next(state: ConvState, reply: Reply, markup: Markup) | Raised(error: AddError)

  /** `user_data.get(key, "")`. */
  function Get(userData: map<string, string>, key: string): string
  {
    if key in userData then userData[key] else ""
  }

  /** A contact whose owner is known (a non-zero user id) and is not the sender. */
  predicate IsForeignContact(c: Contact, userId: int)
  {
    c.userId.Some? && c.userId.value != 0 && c.userId.value != userId
  }

  /**
   * With a phone that `handle_phone` checked free and an id `join` found
   * free, and no write in between, the registration of `handle_region` is
   * admitted and stores exactly the session's name and phone.
   */
  lemma SessionRegistrationAdmitted(rows: seq<Record>, userId: int, name: string, phone: string, region: string, now: string)
    requires !Taken(rows, TelegramIdColumn, IntToString(userId))
    requires AllDigits(phone) && !Taken(rows, PhoneColumn, phone)
    requires Strip(name) == name
    ensures Admit(rows, userId, Strip(name), Strip(phone), region, now).Ok?
    ensures Admit(rows, userId, Strip(name), Strip(phone), region, now).value.fullName == name
    ensures Admit(rows, userId, Strip(name), Strip(phone), region, now).value.phone == phone
  {
    AllDigitsNoSpace(phone);
    StripNoSpace(phone);
    StripIdempotent(name);
  }

  /**
   * The per-user conversation: the session map `user_data` that holds the
   * answers collected so far, and the ledger it registers into.
   */
  class Conversation {
    var userData: map<string, string>
    const ledger: Ledger
    const adminIds: set<int>

    ghost predicate Valid()
      reads this, ledger
    {
      ledger.Valid()
    }

    constructor (ledger: Ledger, adminIds: set<int>)
      requires ledger.Valid()
      ensures Valid() && this.ledger == ledger && this.adminIds == adminIds && userData == map[]
    {
      this.ledger := ledger;
      this.adminIds := adminIds;
      userData := map[];
    }

    /**
     * `join`: a sender with a record is told so, shown the keyboard for
     * registered users and the conversation ends; anyone else is asked for a
     * name with the keyboard removed.
     */
    method Join(userId: int) returns (next: ConvState, reply: Reply, markup: Markup)
      requires Valid()
      modifies ledger
      ensures Valid() && ledger.present && ledger.rows == old(ledger.rows)
      ensures Taken(ledger.rows, TelegramIdColumn, IntToString(userId)) ==>
        next == End && reply == AlreadyRegistered && markup == Show(KbAfterRegisteredFor(userId, adminIds))
      ensures !Taken(ledger.rows, TelegramIdColumn, IntToString(userId)) ==>
        next == StateName && reply == AskFullName && markup == RemoveKeyboard
    {
      var existing := ledger.FindByTelegramId(userId);
      if existing.Some? {
        return End, AlreadyRegistered, Show(KbAfterRegisteredFor(userId, adminIds));
      }
      return StateName, AskFullName, RemoveKeyboard;
    }

    /**
     * `handle_name`: a valid stripped name is stored and the phone is asked
     * for with the contact button; otherwise the name is asked again and the
     * keyboard is left as it is.
     */
    method HandleName(msg: Message) returns (next: ConvState, reply: Reply, markup: Markup)
      modifies this
      ensures IsValidFullName(Strip(msg.text)) ==>
        next == StatePhone && reply == AskPhone && markup == Show(KbContactShare())
        && userData == old(userData)["full_name" := Strip(msg.text)]
      ensures !IsValidFullName(Strip(msg.text)) ==>
        next == StateName && reply == InvalidName && markup == KeepKeyboard && userData == old(userData)
    {
      var text := Strip(msg.text);
      if !IsValidFullName(text) {
        return StateName, InvalidName, KeepKeyboard;
      }
      userData := userData["full_name" := text];
      return StatePhone, AskPhone, Show(KbContactShare());
    }

    /**
     * `handle_phone`: without a contact, with someone else's contact, or
     * with no digits the phone is asked again with the contact button; a
     * phone already in the ledger ends the conversation without storing
     * anything; otherwise the digits are stored and the region is asked for
     * with the region keyboard. The ledger is never written.
     */
    method HandlePhone(msg: Message, userId: int) returns (next: ConvState, reply: Reply, markup: Markup)
      requires Valid()
      modifies this, ledger
      ensures Valid() && ledger.rows == old(ledger.rows)
      ensures ledger.present == (old(ledger.present) || (msg.contact.Some? && !IsForeignContact(msg.contact.value, userId)
                                                         && NormalizePhone(msg.contact.value.phoneNumber) != []))
      ensures msg.contact.None? ==>
        next == StatePhone && reply == ContactButtonOnly && markup == Show(KbContactShare()) && userData == old(userData)
      ensures msg.contact.Some? && IsForeignContact(msg.contact.value, userId) ==>
        next == StatePhone && reply == OwnPhoneOnly && markup == Show(KbContactShare()) && userData == old(userData)
      ensures msg.contact.Some? && !IsForeignContact(msg.contact.value, userId) ==>
        var phone := NormalizePhone(msg.contact.value.phoneNumber);
        && (phone == [] ==>
              next == StatePhone && reply == PhoneNotRecognised && markup == Show(KbContactShare())
              && userData == old(userData))
        && (phone != [] && Taken(ledger.rows, PhoneColumn, phone) ==>
              next == End && markup == Show(KbAfterRegisteredFor(userId, adminIds)) && userData == old(userData)
              && (reply == AlreadyRegistered <==>
                    Key(Lookup(ledger.rows, PhoneColumn, phone).value, TelegramIdColumn) == IntToString(userId))
              && (reply != AlreadyRegistered ==> reply == PhoneAlreadyTaken))
        && (phone != [] && !Taken(ledger.rows, PhoneColumn, phone) ==>
              next == StateRegion && reply == AskRegion && markup == Show(Pairs(REGIONS))
              && userData == old(userData)["phone" := phone])
    {
      if msg.contact.None? {
        return StatePhone, ContactButtonOnly, Show(KbContactShare());
      }
      var contact := msg.contact.value;
      if contact.userId.Some? && contact.userId.value != 0 && contact.userId.value != userId {
        return StatePhone, OwnPhoneOnly, Show(KbContactShare());
      }
      var phone := NormalizePhone(contact.phoneNumber);
      if phone == [] {
        return StatePhone, PhoneNotRecognised, Show(KbContactShare());
      }
      StripNoSpace(phone);
      var used := ledger.FindByPhone(phone);
      if used.Some? {
        if Strip(used.value.telegramId) == IntToString(userId) {
          reply := AlreadyRegistered;
        } else {
          reply := PhoneAlreadyTaken;
        }
        return End, reply, Show(KbAfterRegisteredFor(userId, adminIds));
      }
      userData := userData["phone" := phone];
      var regions := KbRegions();
      return StateRegion, AskRegion, Show(regions);
    }

    /**
     * `handle_region`: a region off the list is asked again with the region
     * keyboard; a listed region registers the session's name and phone once.
     * On success the session is cleared, the keyboard for registered users
     * is shown and the conversation ends; a refusal by the ledger escapes
     * the handler with nothing written and the session kept.
     */
    method HandleRegion(msg: Message, userId: int, now: string) returns (out: Outcome)
      requires Valid()
      modifies this, ledger
      ensures Valid()
      ensures ledger.present == (old(ledger.present) || Strip(msg.text) in REGIONS)
      ensures Strip(msg.text) !in REGIONS ==>
        out == Next(StateRegion, RegionFromListOnly, Show(Pairs(REGIONS)))
        && userData == old(userData) && ledger.rows == old(ledger.rows)
      ensures Strip(msg.text) in REGIONS ==>
        var res := Admit(old(ledger.rows), userId, Strip(Get(old(userData), "full_name")),
                         Strip(Get(old(userData), "phone")), Strip(msg.text), now);
        && ledger.rows == (if res.Ok? then old(ledger.rows) + [res.value] else old(ledger.rows))
        && (res.Ok? ==> out == Next(End, Confirmation, Show(KbAfterRegisteredFor(userId, adminIds))) && userData == map[])
        && (res.Err? ==> out == Raised(res.error) && userData == old(userData))
    {
      var region := Strip(msg.text);
      if region !in REGIONS {
        var regions := KbRegions();
        return Next(StateRegion, RegionFromListOnly, Show(regions));
      }
      var fullName := Strip(Get(userData, "full_name"));
      var phone := Strip(Get(userData, "phone"));
      var res := ledger.AddRegistration(userId, fullName, phone, region, now);
      if res.Err? {
        return Raised(res.error);
      }
      userData := map[];
      return Next(End, Confirmation, Show(KbAfterRegisteredFor(userId, adminIds)));
    }

    /** `cancel`: the session is cleared, the welcome keyboard is shown and the conversation ends. */
    method Cancel() returns (next: ConvState, reply: Reply, markup: Markup)
      modifies this
      ensures userData == map[] && next == End && reply == Cancelled && markup == Show(KbWelcome())
    {
      userData := map[];
      return End, Cancelled, Show(KbWelcome());
    }
  }

  /**
   * One participant's way through the conversation: the join button, a
   * valid name, their own contact and a listed region. When neither the
   * telegram id nor the phone digits are in the ledger yet, exactly one
   * record holding the stripped name, the phone digits and the region is
   * appended, ids and phones stay distinct, and pressing the join button
   * again is answered with "already registered". The states the first
   * three handlers return are the ones the conversation dispatches next.
   */
  method RegisterThroughDialogue(conv: Conversation, userId: int, nameText: string, contactPhone: string,
                                 regionText: string, now: string)
    returns (states: seq<ConvState>, out: Outcome, again: Reply)
    requires conv.Valid() && KeysDistinct(conv.ledger.rows)
    requires !Taken(conv.ledger.rows, TelegramIdColumn, IntToString(userId))
    requires IsValidFullName(Strip(nameText))
    requires NormalizePhone(contactPhone) != [] && !Taken(conv.ledger.rows, PhoneColumn, NormalizePhone(contactPhone))
    requires Strip(regionText) in REGIONS
    modifies conv, conv.ledger
    ensures conv.Valid() && KeysDistinct(conv.ledger.rows)
    ensures states == [StateName, StatePhone, StateRegion]
    ensures out == Next(End, Confirmation, Show(KbAfterRegisteredFor(userId, conv.adminIds)))
    ensures conv.ledger.rows == old(conv.ledger.rows) +
      [Record(IntToString(userId), Strip(nameText), NormalizePhone(contactPhone), Strip(regionText), now)]
    ensures again == AlreadyRegistered
  {
    var rows0 := conv.ledger.rows;
    var name := Strip(nameText);
    var phone := NormalizePhone(contactPhone);
    var s1, reply, markup := conv.Join(userId);
    assert conv.ledger.rows == rows0 && s1 == StateName;
    var s2;
    s2, reply, markup := conv.HandleName(Message(nameText, None));
    assert s2 == StatePhone;
    assert conv.ledger.rows == rows0 && "full_name" in conv.userData && conv.userData["full_name"] == name;
    var contact := Contact(contactPhone, Some(userId));
    assert !IsForeignContact(contact, userId);
    var s3;
    s3, reply, markup := conv.HandlePhone(Message("", Some(contact)), userId);
    assert s3 == StateRegion;
    states := [s1, s2, s3];
    assert conv.ledger.rows == rows0;
    assert conv.userData == old(conv.userData)["full_name" := name]["phone" := phone];
    assert Get(conv.userData, "full_name") == name && Get(conv.userData, "phone") == phone;
    StripIdempotent(nameText);
    SessionRegistrationAdmitted(rows0, userId, name, phone, Strip(regionText), now);
    AllDigitsNoSpace(phone);
    StripNoSpace(phone);
    AdmitKeepsKeysDistinct(rows0, userId, name, phone, Strip(regionText), now);
    var region := Strip(regionText);
    StripIdempotent(regionText);
    var res := Admit(rows0, userId, Strip(name), Strip(phone), region, now);
    assert Strip(name) == name && Strip(phone) == phone;
    assert res.Ok? && res.value == Record(IntToString(userId), name, phone, region, now);
    out := conv.HandleRegion(Message(regionText, None), userId, now);
    assert conv.ledger.rows == rows0 + [res.value];
    var s4;
    s4, again, markup := conv.Join(userId);
  }
}
