// Text entities between the application's form and TDLib's.
module TextEntities {
  import opened Wrappers

  const TWO63: int := 0x8000_0000_0000_0000
  const TWO64: int := 0x1_0000_0000_0000_0000

  type Int64 = x: int | -TWO63 <= x < TWO63
  type UInt64 = x: int | 0 <= x < TWO64

  // The casts between int64 and uint64.
  function ToInt64(u: UInt64): Int64 {
    if u < TWO63 then u else u - TWO64
  }

  function ToUInt64(i: Int64): UInt64 {
    if i < 0 then i + TWO64 else i
  }

  // The entity types that the conversion names, and all others.
  datatype EntityType =
    | Invalid | Url | CustomUrl | Email | Hashtag | Cashtag | Mention | MentionName | BotCommand
    | CustomEmoji | Bold | Italic | Underline | StrikeOut | Code | Pre | Blockquote | Spoiler | Other

  datatype Entity = Entity(kind: EntityType, offset: int, length: int, data: string)

  datatype WireType =
    | WireMention | WireHashtag | WireCashtag | WireBotCommand | WireUrl | WireEmailAddress
    | WirePhoneNumber | WireBankCardNumber | WireBold | WireItalic | WireUnderline
    | WireStrikethrough | WireCode | WirePre | WirePreCode(language: string)
    | WireTextUrl(url: string) | WireMentionName(userId: Int64) | WireSpoiler
    | WireMediaTimestamp(timestamp: int) | WireCustomEmoji(customEmojiId: Int64) | WireBlockQuote

  datatype WireEntity = WireEntity(offset: int, length: int, kind: WireType)

  // QString::number of an unsigned number.
  function Number(n: nat): (s: string)
    ensures s != []
  {
    if n < 10 then [Digit(n)] else Number(n / 10) + [Digit(n % 10)]
  }

  function Digit(d: nat): char
    requires d < 10
  {
    '0' + (d as char)
  }

  // Helpers of other libraries: the data of a mention and its user id, and the unsigned
  // number in a string.
  datatype Helpers = Helpers(
    mentionData: UInt64 -> string, mentionUserId: string -> UInt64, toULongLong: string -> UInt64)
  {
    ghost predicate Faithful() {
      && (forall u: UInt64 :: mentionUserId(mentionData(u)) == u)
      && (forall u: UInt64 :: toULongLong(Number(u)) == u)
    }
  }

  // ----- one entity -----

  // The type and the data of an entity from TDLib.
  function FromType(kind: WireType, h: Helpers): (EntityType, string) {
    match kind
    case WireMention => (Mention, "")
    case WireHashtag => (Hashtag, "")
    case WireCashtag => (Cashtag, "")
    case WireBotCommand => (BotCommand, "")
    case WireUrl => (Url, "")
    case WireEmailAddress => (Email, "")
    case WirePhoneNumber => (Invalid, "")
    case WireBankCardNumber => (Invalid, "")
    case WireBold => (Bold, "")
    case WireItalic => (Italic, "")
    case WireUnderline => (Underline, "")
    case WireStrikethrough => (StrikeOut, "")
    case WireCode => (Code, "")
    case WirePre => (Pre, "")
    case WirePreCode(language) => (Pre, language)
    case WireTextUrl(url) => (CustomUrl, url)
    case WireMentionName(userId) => (MentionName, h.mentionData(ToUInt64(userId)))
    case WireSpoiler => (Spoiler, "")
    case WireMediaTimestamp(_) => (Invalid, "")
    case WireCustomEmoji(id) => (CustomEmoji, Number(ToUInt64(id)))
    case WireBlockQuote => (Blockquote, "")
  }

  predicate Allowed(kind: EntityType) {
    kind in {Bold, Italic, Underline, StrikeOut, Code, Pre, Blockquote, Spoiler, MentionName, CustomUrl, CustomEmoji}
  }

  function ToType(e: Entity, h: Helpers): Option<WireType> {
    match e.kind
    case Url => Some(WireUrl)
    case CustomUrl => Some(WireTextUrl(e.data))
    case Email => Some(WireEmailAddress)
    case Hashtag => Some(WireHashtag)
    case Cashtag => Some(WireCashtag)
    case Mention => Some(WireMention)
    case MentionName =>
      if h.mentionUserId(e.data) != 0 then Some(WireMentionName(ToInt64(h.mentionUserId(e.data)))) else None
    case BotCommand => Some(WireBotCommand)
    case Bold => Some(WireBold)
    case Italic => Some(WireItalic)
    case Underline => Some(WireUnderline)
    case StrikeOut => Some(WireStrikethrough)
    case Code => Some(WireCode)
    case Pre => Some(if e.data == "" then WirePre else WirePreCode(e.data))
    case Spoiler => Some(WireSpoiler)
    case CustomEmoji => Some(WireCustomEmoji(ToInt64(h.toULongLong(e.data))))
    case Blockquote => Some(WireBlockQuote)
    case Invalid => None
    case Other => None
  }

  function FromOne(w: WireEntity, h: Helpers): seq<Entity> {
    var (kind, data) := FromType(w.kind, h);
    if kind == Invalid then [] else [Entity(kind, w.offset, w.length, data)]
  }

  function ToOne(e: Entity, h: Helpers): seq<WireEntity> {
    if e.length <= 0 || !Allowed(e.kind) then []
    else
      match ToType(e, h)
      case Some(kind) => [WireEntity(e.offset, e.length, kind)]
      case None => []
  }

  // ----- lists -----

  function FromTdb(ws: seq<WireEntity>, h: Helpers): seq<Entity> {
    if ws == [] then [] else FromTdb(ws[..|ws| - 1], h) + FromOne(ws[|ws| - 1], h)
  }

  function ToTdb(es: seq<Entity>, h: Helpers): seq<WireEntity> {
    if es == [] then [] else ToTdb(es[..|es| - 1], h) + ToOne(es[|es| - 1], h)
  }

  method EntitiesFromTdb(entities: seq<WireEntity>, h: Helpers) returns (result: seq<Entity>)
    ensures result == FromTdb(entities, h)
  {
    result := [];
    if entities != [] {
      var i := 0;
      while i < |entities|
        invariant 0 <= i <= |entities|
        invariant result == FromTdb(entities[..i], h)
      {
        var (kind, additional) := FromType(entities[i].kind, h);
        if kind != Invalid {
          result := result + [Entity(kind, entities[i].offset, entities[i].length, additional)];
        }
        assert entities[..i + 1][..i] == entities[..i];
        i := i + 1;
      }
      assert entities[..i] == entities;
    }
  }

  method EntitiesToTdb(entities: seq<Entity>, h: Helpers) returns (v: seq<WireEntity>)
    ensures v == ToTdb(entities, h)
  {
    v := [];
    var i := 0;
    while i < |entities|
      invariant 0 <= i <= |entities|
      invariant v == ToTdb(entities[..i], h)
    {
      var e := entities[i];
      assert entities[..i + 1][..i] == entities[..i];
      i := i + 1;
      if e.length <= 0 {
        continue;
      } else if !Allowed(e.kind) {
        continue;
      }
      var kind := ToType(e, h);
      if kind.Some? {
        v := v + [WireEntity(e.offset, e.length, kind.value)];
      }
    }
    assert entities[..i] == entities;
  }

  // ----- round trips -----

  // The entities that are sent: of positive length, of an allowed type, and not a mention
  // without a user.
  predicate Sent(e: Entity, h: Helpers) {
    e.length > 0 && Allowed(e.kind) && (e.kind == MentionName ==> h.mentionUserId(e.data) != 0)
  }

  // An entity as it comes back: only the data changes, to its canonical form.
  function Canonical(e: Entity, h: Helpers): Entity {
    match e.kind
    case Pre => e
    case CustomUrl => e
    case MentionName => e.(data := h.mentionData(h.mentionUserId(e.data)))
    case CustomEmoji => e.(data := Number(h.toULongLong(e.data)))
    case _ => e.(data := "")
  }

  function SentCanonical(es: seq<Entity>, h: Helpers): seq<Entity> {
    if es == [] then []
    else SentCanonical(es[..|es| - 1], h)
         + if Sent(es[|es| - 1], h) then [Canonical(es[|es| - 1], h)] else []
  }

  // The casts keep a number modulo 2^64, so they undo each other.
  lemma CastsUndone(u: UInt64, i: Int64)
    ensures ToUInt64(ToInt64(u)) == u && ToInt64(ToUInt64(i)) == i
    ensures (u - ToInt64(u)) % TWO64 == 0 && (i - ToUInt64(i)) % TWO64 == 0
  {
  }

  lemma OneRoundTrip(e: Entity, h: Helpers)
    requires h.Faithful()
    ensures FromTdb(ToOne(e, h), h) == if Sent(e, h) then [Canonical(e, h)] else []
  {
    hide Number;
    if Sent(e, h) {
      var w := ToOne(e, h)[0];
      assert ToOne(e, h) == [w] && [w][..0] == [];
      CastsUndone(h.mentionUserId(e.data), 0);
      CastsUndone(h.toULongLong(e.data), 0);
      assert FromOne(w, h) == [Canonical(e, h)];
    }
  }

  lemma {:induction false} FromTdbConcat(a: seq<WireEntity>, b: seq<WireEntity>, h: Helpers)
    ensures FromTdb(a + b, h) == FromTdb(a, h) + FromTdb(b, h)
  {
    if b == [] {
      assert a + b == a;
    } else {
      hide FromOne;
      var n := |b| - 1;
      assert (a + b)[..|a + b| - 1] == a + b[..n];
      FromTdbConcat(a, b[..n], h);
    }
  }

  // Sending and receiving keeps exactly the entities that are sent, in order, with their
  // type, offset and length.
  lemma {:induction false} RoundTrip(es: seq<Entity>, h: Helpers)
    requires h.Faithful()
    ensures FromTdb(ToTdb(es, h), h) == SentCanonical(es, h)
  {
    if es != [] {
      hide ToOne, FromOne, Sent, Canonical;
      var n := |es| - 1;
      RoundTrip(es[..n], h);
      OneRoundTrip(es[n], h);
      FromTdbConcat(ToTdb(es[..n], h), ToOne(es[n], h), h);
    }
  }

  lemma {:induction false} ToTdbConcat(a: seq<Entity>, b: seq<Entity>, h: Helpers)
    ensures ToTdb(a + b, h) == ToTdb(a, h) + ToTdb(b, h)
  {
    if b == [] {
      assert a + b == a;
    } else {
      hide ToOne;
      var n := |b| - 1;
      assert (a + b)[..|a + b| - 1] == a + b[..n];
      ToTdbConcat(a, b[..n], h);
    }
  }

  // One entity from TDLib is sent back unchanged exactly when its length is positive and its
  // type is one of those sent, other than code with an empty language or a mention of user 0.
  predicate Unchanged(w: WireEntity) {
    w.length > 0 &&
    match w.kind
    case WireBold => true
    case WireItalic => true
    case WireUnderline => true
    case WireStrikethrough => true
    case WireCode => true
    case WirePre => true
    case WirePreCode(language) => language != ""
    case WireTextUrl(_) => true
    case WireMentionName(userId) => userId != 0
    case WireSpoiler => true
    case WireCustomEmoji(_) => true
    case WireBlockQuote => true
    case _ => false
  }

  lemma OneSentBack(w: WireEntity, h: Helpers)
    requires h.Faithful()
    ensures |ToTdb(FromOne(w, h), h)| <= 1
    ensures ToTdb(FromOne(w, h), h) == [w] <==> Unchanged(w)
  {
    if FromOne(w, h) == [] {
      assert ToTdb([], h) == [];
    } else {
      var e := FromOne(w, h)[0];
      SentOne(e, h);
      hide Number, ToTdb;
      if w.kind.WireMentionName? {
        CastsUndone(0, w.kind.userId);
      } else if w.kind.WireCustomEmoji? {
        CastsUndone(0, w.kind.customEmojiId);
      }
    }
  }

  ghost predicate AllUnchanged(ws: seq<WireEntity>) {
    forall w :: w in ws ==> Unchanged(w)
  }

  lemma OneMoreUnchanged(ws: seq<WireEntity>, w: WireEntity)
    ensures AllUnchanged(ws + [w]) <==> AllUnchanged(ws) && Unchanged(w)
  {
    hide Unchanged;
    assert forall v :: v in ws + [w] <==> v in ws || v == w;
  }

  lemma SplitEqual(front: seq<WireEntity>, last: seq<WireEntity>, ws: seq<WireEntity>, w: WireEntity)
    requires |front| <= |ws| && |last| <= 1
    ensures front + last == ws + [w] <==> front == ws && last == [w]
  {
    if front + last == ws + [w] {
      assert |front| == |ws|;
      assert front == (front + last)[..|ws|] && last == (front + last)[|ws|..];
      assert ws == (ws + [w])[..|ws|] && [w] == (ws + [w])[|ws|..];
    }
  }

  lemma OneMoreSentBack(ws: seq<WireEntity>, w: WireEntity, h: Helpers)
    ensures ToTdb(FromTdb(ws + [w], h), h) == ToTdb(FromTdb(ws, h), h) + ToTdb(FromOne(w, h), h)
  {
    hide FromOne, ToTdb;
    assert (ws + [w])[..|ws|] == ws;
    ToTdbConcat(FromTdb(ws, h), FromOne(w, h), h);
  }

  // A list from TDLib is sent back unchanged exactly when each of its entities is.
  lemma {:induction false} SentBack(ws: seq<WireEntity>, h: Helpers)
    requires h.Faithful()
    ensures |ToTdb(FromTdb(ws, h), h)| <= |ws|
    ensures ToTdb(FromTdb(ws, h), h) == ws <==> AllUnchanged(ws)
  {
    hide ToTdb, FromTdb, FromOne, Unchanged, AllUnchanged, Helpers.Faithful;
    if ws == [] {
      NothingSentBack(h);
    } else {
      var n := |ws| - 1;
      var front, w := ws[..n], ws[n];
      SentBack(front, h);
      OneSentBack(w, h);
      OneMoreSentBack(front, w, h);
      OneMoreUnchanged(front, w);
      SplitEqual(ToTdb(FromTdb(front, h), h), ToTdb(FromOne(w, h), h), front, w);
      assert ws == front + [w];
    }
  }

  lemma NothingSentBack(h: Helpers)
    ensures ToTdb(FromTdb([], h), h) == [] && AllUnchanged([])
  {
  }

  lemma OneIsUnchanged(e: Entity, h: Helpers)
    ensures forall w :: w in ToOne(e, h) ==> Unchanged(w)
  {
    if e.kind == MentionName && h.mentionUserId(e.data) != 0 {
      CastsUndone(h.mentionUserId(e.data), 0);
    }
  }

  lemma {:induction false} SentIsUnchanged(es: seq<Entity>, h: Helpers)
    ensures AllUnchanged(ToTdb(es, h))
  {
    if es != [] {
      hide ToOne, Unchanged;
      SentIsUnchanged(es[..|es| - 1], h);
      OneIsUnchanged(es[|es| - 1], h);
    }
  }

  // Converting to TDLib's form is a stable projection.
  lemma StableProjection(es: seq<Entity>, h: Helpers)
    requires h.Faithful()
    ensures ToTdb(FromTdb(ToTdb(es, h), h), h) == ToTdb(es, h)
  {
    SentIsUnchanged(es, h);
    SentBack(ToTdb(es, h), h);
  }

  // ----- types by name -----

  lemma ReceivedOne(w: WireEntity, h: Helpers)
    ensures FromTdb([w], h) == FromOne(w, h)
  {
    assert [w][..0] == [];
  }

  lemma SentOne(e: Entity, h: Helpers)
    ensures ToTdb([e], h) == ToOne(e, h)
  {
    assert [e][..0] == [];
  }

  // The three types that have no counterpart are dropped; any other entity is received at its
  // place, and its type and data lead back to what TDLib sent, but for code with an empty
  // language and for a mention of user 0.
  lemma ReceivedExactly(w: WireEntity, h: Helpers)
    requires h.Faithful()
    ensures FromTdb([w], h) == [] <==>
            w.kind.WirePhoneNumber? || w.kind.WireBankCardNumber? || w.kind.WireMediaTimestamp?
    ensures FromTdb([w], h) != [] ==>
            var e := FromTdb([w], h)[0];
            && FromTdb([w], h) == [e] && e.offset == w.offset && e.length == w.length
            && (ToType(e, h) == Some(w.kind) <==> w.kind != WirePreCode("") && w.kind != WireMentionName(0))
  {
    ReceivedOne(w, h);
    hide FromTdb, Number;
    if w.kind.WireMentionName? {
      CastsUndone(0, w.kind.userId);
    } else if w.kind.WireCustomEmoji? {
      CastsUndone(0, w.kind.customEmojiId);
    }
  }

  // What each type of TDLib is received as.
  lemma ReceivedByName(w: WireEntity, h: Helpers)
    ensures var es := FromTdb([w], h);
            match w.kind
            case WireMention => es == [Entity(Mention, w.offset, w.length, "")]
            case WireHashtag => es == [Entity(Hashtag, w.offset, w.length, "")]
            case WireCashtag => es == [Entity(Cashtag, w.offset, w.length, "")]
            case WireBotCommand => es == [Entity(BotCommand, w.offset, w.length, "")]
            case WireUrl => es == [Entity(Url, w.offset, w.length, "")]
            case WireEmailAddress => es == [Entity(Email, w.offset, w.length, "")]
            case WireBold => es == [Entity(Bold, w.offset, w.length, "")]
            case WireItalic => es == [Entity(Italic, w.offset, w.length, "")]
            case WireUnderline => es == [Entity(Underline, w.offset, w.length, "")]
            case WireStrikethrough => es == [Entity(StrikeOut, w.offset, w.length, "")]
            case WireCode => es == [Entity(Code, w.offset, w.length, "")]
            case WirePre => es == [Entity(Pre, w.offset, w.length, "")]
            case WirePreCode(language) => es == [Entity(Pre, w.offset, w.length, language)]
            case WireTextUrl(url) => es == [Entity(CustomUrl, w.offset, w.length, url)]
            case WireSpoiler => es == [Entity(Spoiler, w.offset, w.length, "")]
            case WireBlockQuote => es == [Entity(Blockquote, w.offset, w.length, "")]
            case WireMentionName(user) =>
              es == [Entity(MentionName, w.offset, w.length, h.mentionData(if user < 0 then user + 0x1_0000_0000_0000_0000 else user))]
            case WireCustomEmoji(id) =>
              es == [Entity(CustomEmoji, w.offset, w.length, Number(if id < 0 then id + 0x1_0000_0000_0000_0000 else id))]
            case _ => es == []
  {
    ReceivedOne(w, h);
    hide FromTdb, Number;
  }

  // What each type is sent as, for an entity of positive length.
  lemma SentByName(e: Entity, h: Helpers)
    requires e.length > 0
    ensures var sent := ToTdb([e], h);
            match e.kind
            case Bold => sent == [WireEntity(e.offset, e.length, WireBold)]
            case Italic => sent == [WireEntity(e.offset, e.length, WireItalic)]
            case Underline => sent == [WireEntity(e.offset, e.length, WireUnderline)]
            case StrikeOut => sent == [WireEntity(e.offset, e.length, WireStrikethrough)]
            case Code => sent == [WireEntity(e.offset, e.length, WireCode)]
            case Pre => sent == [WireEntity(e.offset, e.length, if e.data == "" then WirePre else WirePreCode(e.data))]
            case Blockquote => sent == [WireEntity(e.offset, e.length, WireBlockQuote)]
            case Spoiler => sent == [WireEntity(e.offset, e.length, WireSpoiler)]
            case CustomUrl => sent == [WireEntity(e.offset, e.length, WireTextUrl(e.data))]
            case MentionName =>
              var user := h.mentionUserId(e.data);
              if user == 0 then sent == []
              else sent == [WireEntity(e.offset, e.length, WireMentionName(if user < 0x8000_0000_0000_0000 then user else user - 0x1_0000_0000_0000_0000))]
            case CustomEmoji =>
              var id := h.toULongLong(e.data);
              sent == [WireEntity(e.offset, e.length, WireCustomEmoji(if id < 0x8000_0000_0000_0000 then id else id - 0x1_0000_0000_0000_0000))]
            case _ => sent == []
  {
    SentOne(e, h);
    hide ToTdb;
  }

  lemma NotSentWithoutLength(e: Entity, h: Helpers)
    ensures e.length <= 0 ==> ToTdb([e], h) == []
  {
    SentOne(e, h);
  }

  // ----- decimal numbers -----

  predicate IsDigit(c: char) {
    '0' <= c <= '9'
  }

  // The number in a string of digits.
  function Value(s: string): nat
    requires forall c :: c in s ==> IsDigit(c)
  {
    if s == [] then 0
    else
      var c := s[|s| - 1];
      assert c in s && IsDigit(c);
      10 * Value(s[..|s| - 1]) + (c as nat - '0' as nat)
  }

  // A parser that accepts digits only and answers 0 to everything else.
  function Parse(s: string): UInt64 {
    if s != [] && (forall c :: c in s ==> IsDigit(c)) && Value(s) < TWO64 then Value(s) else 0
  }

  lemma {:induction false} NumberHasValue(n: nat)
    ensures forall c :: c in Number(n) ==> IsDigit(c)
    ensures Value(Number(n)) == n
    ensures Number(n)[0] == '0' <==> n == 0
  {
    if n >= 10 {
      NumberHasValue(n / 10);
      assert Number(n)[..|Number(n)| - 1] == Number(n / 10);
    } else {
      assert Number(n)[..0] == [];
    }
  }

  // The assumption on the number helper can be met: printing and parsing 64-bit ids is
  // the identity.
  lemma ParseUndoesNumber(u: UInt64)
    ensures Parse(Number(u)) == u
  {
    NumberHasValue(u);
  }

  // ----- formatted texts -----

  datatype FormattedText = FormattedText(text: string, entities: seq<WireEntity>)
  datatype TextWithEntities = TextWithEntities(text: string, entities: seq<Entity>)

  function FormattedTextToTdb(t: TextWithEntities, h: Helpers): FormattedText {
    FormattedText(t.text, ToTdb(t.entities, h))
  }

  function FormattedTextFromTdb(t: FormattedText, h: Helpers): TextWithEntities {
    TextWithEntities(t.text, FromTdb(t.entities, h))
  }

  lemma FormattedTextStable(t: TextWithEntities, h: Helpers)
    requires h.Faithful()
    ensures var sent := FormattedTextToTdb(t, h);
            var received := FormattedTextFromTdb(sent, h);
            && received.text == t.text && received.entities == SentCanonical(t.entities, h)
            && FormattedTextToTdb(received, h) == sent
  {
    RoundTrip(t.entities, h);
    StableProjection(t.entities, h);
  }
}
