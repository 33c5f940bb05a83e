/** The lite game's cards: time bonuses, five powerups and 28 curses, with the accessors the
    abstract Card, Curse and Powerup classes define or default. */
module LiteCards {
  import opened Exceptions
  import opened Text

  datatype CurseKind =
    | Zoologist | UnguidedTourist | EndlessTumble | Hangman | Chalice | MediocreTravelAgent
    | LuxuryCar | UTurn | BridgeTroll | Water | JammedDoor | Cairn | UrbanExplorer
    | DistantCuisine | RightTurn | Labyrinth | BirdGuide | DrainedBrain | Ransom | GamblersFeet
    | ProsperousHome | Void | ExpressTrain | ZippedLip | PlaguedWord | Queue | Rewind | TinyHome

  datatype Card =
    | TimeBonus(minutes: int)
    | Randomise
    | Veto
    | Duplicate
    | DiscardDraw(discardAmount: int, drawAmount: int)
    | DrawExpand(drawAmount: int, expandAmount: int)
    | Curse(kind: CurseKind)

  /** The display colour tag, standing for the disnake Colour a card reports. */
  datatype Colour = Red | Blue | Purple

  predicate IsPowerup(c: Card)
  {
    c.Randomise? || c.Veto? || c.Duplicate? || c.DiscardDraw? || c.DrawExpand?
  }

  /** `get_time_bonus`: a TimeBonus of m minutes is worth m * 60 seconds; every other card
      keeps the base class's 0. */
  function TimeBonusSeconds(c: Card): (seconds: int)
    ensures c.TimeBonus? ==> seconds == 60 * c.minutes
    ensures !c.TimeBonus? ==> seconds == 0
  {
    match c
    case TimeBonus(m) => m * 60
    case _ => 0
  }

  /** `get_inform_seekers`: Randomise, Veto and every curse inform the seekers; time bonuses
      and the other three powerups do not. */
  function InformSeekers(c: Card): (inform: bool)
    ensures inform <==> c.Randomise? || c.Veto? || c.Curse?
  {
    match c
    case TimeBonus(_) => false
    case Randomise => true
    case Veto => true
    case Duplicate => false
    case DiscardDraw(_, _) => false
    case DrawExpand(_, _) => false
    case Curse(_) => true
  }

  /** `get_colour`: time bonuses are red, powerups blue and curses purple. */
  function GetColour(c: Card): (colour: Colour)
    ensures colour == Red <==> c.TimeBonus?
    ensures colour == Blue <==> IsPowerup(c)
    ensures colour == Purple <==> c.Curse?
  {
    match c
    case TimeBonus(_) => Red
    case Curse(_) => Purple
    case _ => Blue
  }

  /** A curse's name: "Curse of the " and the curse's own title. */
  function CurseName(k: CurseKind): string
  {
    "Curse of the " + CurseTitle(k)
  }

  /** The part of each curse's name after "Curse of the ". */
  function CurseTitle(k: CurseKind): (title: string)
    ensures |title| > 0
  {
    match k
    case Zoologist => "Zoologist"
    case UnguidedTourist => "Unguided Tourist"
    case EndlessTumble => "Endless Tumble"
    case Hangman => "Hidden Hangman"
    case Chalice => "Overflowing Chalice"
    case MediocreTravelAgent => "Mediocre Travel Agent"
    case LuxuryCar => "Luxury Car"
    case UTurn => "U-Turn"
    case BridgeTroll => "Bridge Troll"
    case Water => "Water Weight"
    case JammedDoor => "Jammed Door"
    case Cairn => "Cairn"
    case UrbanExplorer => "Urban Explorer"
    case DistantCuisine => "Distant Cuisine"
    case RightTurn => "Right Turn"
    case Labyrinth => "Labyrinth"
    case BirdGuide => "Bird Guide"
    case DrainedBrain => "Drained Brain"
    case Ransom => "Ransom Note"
    case GamblersFeet => "Gambler's Feet"
    case ProsperousHome => "Prosperous Home"
    case Void => "Void"
    case ExpressTrain => "Express Train"
    case ZippedLip => "Zipped Lip"
    case PlaguedWord => "Plagued Word"
    case Queue => "Queue"
    case Rewind => "Rewind"
    case TinyHome => "Tiny Home"
  }

  /** `get_card_name` */
  function GetCardName(c: Card): string
  {
    match c
    case TimeBonus(m) => IntToString(m) + " Minute Time Bonus"
    case Randomise => "Randomise Question"
    case Veto => "Veto Question"
    case Duplicate => "Duplicate Card"
    case DiscardDraw(d, n) => "Discard " + IntToString(d) + ", Draw " + IntToString(n)
    case DrawExpand(n, e) => "Draw " + IntToString(n) + ", Expand Max Hand Size by " + IntToString(e)
    case Curse(k) => CurseName(k)
  }

  /** Reads a curse back from the length of its name and the first letter after
      "Curse of the "; the names are told apart by these two alone. */
  function CurseFromKey(length: int, initial: char): Option<CurseKind>
  {
    if initial == 'B' then if length == 25 then Some(BridgeTroll) else if length == 23 then Some(BirdGuide) else None
    else if initial == 'C' then if length == 18 then Some(Cairn) else None
    else if initial == 'D' then if length == 28 then Some(DistantCuisine) else if length == 26 then Some(DrainedBrain) else None
    else if initial == 'E' then if length == 27 then Some(EndlessTumble) else if length == 26 then Some(ExpressTrain) else None
    else if initial == 'G' then if length == 27 then Some(GamblersFeet) else None
    else if initial == 'H' then if length == 27 then Some(Hangman) else None
    else if initial == 'J' then if length == 24 then Some(JammedDoor) else None
    else if initial == 'L' then if length == 23 then Some(LuxuryCar) else if length == 22 then Some(Labyrinth) else None
    else if initial == 'M' then if length == 34 then Some(MediocreTravelAgent) else None
    else if initial == 'O' then if length == 32 then Some(Chalice) else None
    else if initial == 'P' then if length == 28 then Some(ProsperousHome) else if length == 25 then Some(PlaguedWord) else None
    else if initial == 'Q' then if length == 18 then Some(Queue) else None
    else if initial == 'R' then if length == 23 then Some(RightTurn) else if length == 24 then Some(Ransom) else if length == 19 then Some(Rewind) else None
    else if initial == 'T' then if length == 22 then Some(TinyHome) else None
    else if initial == 'U' then if length == 29 then Some(UnguidedTourist) else if length == 19 then Some(UTurn) else if length == 27 then Some(UrbanExplorer) else None
    else if initial == 'V' then if length == 17 then Some(Void) else None
    else if initial == 'W' then if length == 25 then Some(Water) else None
    else if initial == 'Z' then if length == 22 then Some(Zoologist) else if length == 23 then Some(ZippedLip) else None
    else None
  }

  /** Every curse name starts "Curse of the ", so with a capital C, and can be read back. */
  lemma CurseNameKey(k: CurseKind)
    ensures |CurseName(k)| > 13 && CurseName(k)[0] == 'C'
    ensures CurseFromKey(|CurseName(k)|, CurseName(k)[13]) == Some(k)
  {
    var name, title := CurseName(k), CurseTitle(k);
    CurseTitleKey(k);
    assert name == "Curse of the " + title;
    assert |name| == 13 + |title| && name[0] == 'C' && name[13] == title[0];
  }

  /** Each title, with its length, picks out its curse. */
  lemma CurseTitleKey(k: CurseKind)
    ensures CurseFromKey(13 + |CurseTitle(k)|, CurseTitle(k)[0]) == Some(k)
  {
    match k {
      case Zoologist =>
      case UnguidedTourist =>
      case EndlessTumble =>
      case Hangman =>
      case Chalice =>
      case MediocreTravelAgent =>
      case LuxuryCar =>
      case UTurn =>
      case BridgeTroll =>
      case Water =>
      case JammedDoor =>
      case Cairn =>
      case UrbanExplorer =>
      case DistantCuisine =>
      case RightTurn =>
      case Labyrinth =>
      case BirdGuide =>
      case DrainedBrain =>
      case Ransom =>
      case GamblersFeet =>
      case ProsperousHome =>
      case Void =>
      case ExpressTrain =>
      case ZippedLip =>
      case PlaguedWord =>
      case Queue =>
      case Rewind =>
      case TinyHome =>
    }
  }

  /** No two curses share a name. */
  lemma CurseNamesDistinct(a: CurseKind, b: CurseKind)
    ensures CurseName(a) == CurseName(b) ==> a == b
  {
    CurseNameKey(a);
    CurseNameKey(b);
  }

  /** The first two characters of a card's name tell its kind: a numeral for time bonuses,
      "Ra", "Ve", "Du", "Di", "Dr" for the powerups and "Cu" for curses. */
  lemma CardNameHead(c: Card)
    ensures |GetCardName(c)| >= 2
    ensures c.TimeBonus? <==> GetCardName(c)[0] == '-' || '0' <= GetCardName(c)[0] <= '9'
    ensures c.Randomise? <==> GetCardName(c)[0] == 'R' && GetCardName(c)[1] == 'a'
    ensures c.Veto? <==> GetCardName(c)[0] == 'V' && GetCardName(c)[1] == 'e'
    ensures c.Duplicate? <==> GetCardName(c)[0] == 'D' && GetCardName(c)[1] == 'u'
    ensures c.DiscardDraw? <==> GetCardName(c)[0] == 'D' && GetCardName(c)[1] == 'i'
    ensures c.DrawExpand? <==> GetCardName(c)[0] == 'D' && GetCardName(c)[1] == 'r'
    ensures c.Curse? <==> GetCardName(c)[0] == 'C'
  {
    match c
    case TimeBonus(m) =>
      assert GetCardName(c)[0] == IntToString(m)[0];
    case Curse(k) =>
      CurseNameKey(k);
    case Randomise =>
    case Veto =>
    case Duplicate =>
    case DiscardDraw(d, n) =>
      assert GetCardName(c)[..8] == "Discard ";
    case DrawExpand(n, e) =>
      assert GetCardName(c)[..5] == "Draw ";
  }

  /** `get_card_name` is one-to-one: no two different cards share a display name, which is
      what lets `fetch_card_by_name` find a card again from its name. */
  lemma GetCardNameInjective(a: Card, b: Card)
    ensures GetCardName(a) == GetCardName(b) ==> a == b
  {
    if GetCardName(a) == GetCardName(b) {
      CardNameHead(a);
      CardNameHead(b);
      match a
      case TimeBonus(m) => TimeBonusNamesDiffer(m, b.minutes);
      case DiscardDraw(d, n) => DiscardDrawNamesDiffer(a, b);
      case DrawExpand(n, e) => DrawExpandNamesDiffer(a, b);
      case Curse(k) => CurseNamesDistinct(k, b.kind);
      case Randomise =>
      case Veto =>
      case Duplicate =>
    }
  }

  lemma TimeBonusNamesDiffer(m: int, m': int)
    ensures GetCardName(TimeBonus(m)) == GetCardName(TimeBonus(m')) ==> m == m'
  {
    NumeralsBeforeMarker(IntToString(m), IntToString(m'), " Minute Time Bonus", "", "");
    IntToStringInjective(m, m');
  }

  lemma DiscardDrawNamesDiffer(a: Card, b: Card)
    requires a.DiscardDraw? && b.DiscardDraw?
    ensures GetCardName(a) == GetCardName(b) ==> a == b
  {
    var rest := ", Draw ";
    var x, y := IntToString(a.discardAmount), IntToString(b.discardAmount);
    var u, v := IntToString(a.drawAmount), IntToString(b.drawAmount);
    assert GetCardName(a) == "Discard " + (x + rest + u);
    assert GetCardName(b) == "Discard " + (y + rest + v);
    assert x + rest + u == GetCardName(a)[8..];
    assert y + rest + v == GetCardName(b)[8..];
    NumeralsBeforeMarker(x, y, rest, u, v);
    IntToStringInjective(a.discardAmount, b.discardAmount);
    IntToStringInjective(a.drawAmount, b.drawAmount);
  }

  lemma DrawExpandNamesDiffer(a: Card, b: Card)
    requires a.DrawExpand? && b.DrawExpand?
    ensures GetCardName(a) == GetCardName(b) ==> a == b
  {
    var rest := ", Expand Max Hand Size by ";
    var x, y := IntToString(a.drawAmount), IntToString(b.drawAmount);
    var u, v := IntToString(a.expandAmount), IntToString(b.expandAmount);
    assert GetCardName(a) == "Draw " + (x + rest + u);
    assert GetCardName(b) == "Draw " + (y + rest + v);
    assert x + rest + u == GetCardName(a)[5..];
    assert y + rest + v == GetCardName(b)[5..];
    NumeralsBeforeMarker(x, y, rest, u, v);
    IntToStringInjective(a.drawAmount, b.drawAmount);
    IntToStringInjective(a.expandAmount, b.expandAmount);
  }
}
