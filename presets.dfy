/**
 * The preset registry of src/components/Builder/Presets.tsx. The two store
 * presets carry a timestamp of "today at HH:00", computed when the module is
 * loaded; the clock reading is the parameter `todayAt`, which maps an hour
 * to the ISO-8601 text of that hour today.
 */
module Presets {
  import opened Wrappers
  import opened Document

  datatype PresetName = Default | EpicGames | Steam

  /** The order `Object.entries(presets)` visits the registry in. */
  const Order: seq<PresetName> := [Default, EpicGames, Steam]

  const RoleMention: string := "<@&847939354978811924>"
  const FreeGames: string := "Free Games"
  const BotAvatar: string := "https://wolfey.s-ul.eu/5nV1WPyv"
  const StoreUrl: string := "https://free.wolfey.me/"
  const EpicIcon: string := "https://wolfey.s-ul.eu/YcyMXrI1"
  const SteamIcon: string := "https://wolfey.s-ul.eu/zoX0PE7K"
  const OfferEnds: string := "Offer ends"

  /** `parseInt('#85ce4b'.replace('#', ''), 16)` */
  const PresetColor: int := 0x85ce4b

  const GameField: Field := Field("Game", "~~€~~ **Free**\n[Claim Game]()", true)

  /** The hour a preset's timestamp is set to: 18:00 for the Epic Games preset, 00:00 otherwise. */
  function CanonicalHour(name: PresetName): int {
    if name == EpicGames then 18 else 0
  }

  /** The one embed of a store preset. */
  function StoreEmbed(author: string, icon: string, timestamp: string): Embed {
    Embed(PresetColor, [GameField],
      Some(Author(Some(author), Some(StoreUrl), Some(icon))),
      Some(Footer(Some(OfferEnds))),
      Some(timestamp),
      Some(Image("")))
  }

  /** `presets[name]`, with the store timestamps taken from the clock reading `todayAt`. */
  function Preset(name: PresetName, todayAt: int -> string): (d: EmbedData)
    ensures WithinLimits(d)
  {
    match name
    case Default => EmbedData("", [], "", "", None)
    case EpicGames =>
      var d := EmbedData(RoleMention, [StoreEmbed("Epic Games Store", EpicIcon, todayAt(18))], FreeGames, BotAvatar, None);
      StoreEmbedWithinLimits("Epic Games Store", EpicIcon, todayAt(18));
      d
    case Steam =>
      var d := EmbedData(RoleMention, [StoreEmbed("Steam", SteamIcon, todayAt(0))], FreeGames, BotAvatar, None);
      StoreEmbedWithinLimits("Steam", SteamIcon, todayAt(0));
      d
  }

  lemma StoreEmbedWithinLimits(author: string, icon: string, timestamp: string)
    requires |author| <= 16
    ensures EmbedWithinLimits(StoreEmbed(author, icon, timestamp))
    ensures CharCount(StoreEmbed(author, icon, timestamp)) == |author| + |OfferEnds| + |GameField.name| + |GameField.value|
  {
    var e := StoreEmbed(author, icon, timestamp);
    assert e.fields[..|e.fields| - 1] == [];
    assert FieldChars(e.fields) == |GameField.name| + |GameField.value|;
    assert |GameField.value| == 29;
  }

  /** The default preset is the empty document. */
  lemma DefaultIsEmpty(todayAt: int -> string)
    ensures var d := Preset(Default, todayAt);
      d.content == "" && d.embeds == [] && d.username == "" && d.avatarUrl == "" && d.attachments.None?
  {
  }

  /** Both store presets hold one embed and share content, username and avatar. */
  lemma StorePresetsShape(name: PresetName, todayAt: int -> string)
    requires name != Default
    ensures var d := Preset(name, todayAt);
      && |d.embeds| == 1
      && d.content == RoleMention && d.username == FreeGames && d.avatarUrl == BotAvatar
      && d.embeds[0].color == 8769099
      && d.embeds[0].fields == [Field("Game", GameField.value, true)]
      && d.embeds[0].footer == Some(Footer(Some("Offer ends")))
      && d.embeds[0].timestamp == Some(todayAt(CanonicalHour(name)))
  {
  }

  /** The author icon of a preset's first embed, None when there is none. */
  function FirstIconUrl(d: EmbedData): Option<string> {
    if |d.embeds| > 0 && d.embeds[0].author.Some? then d.embeds[0].author.value.iconUrl else None
  }

  /** The store presets differ in their first embed's author icon, and only there among the matching keys. */
  lemma StoreIconsDiffer(todayAt: int -> string)
    ensures FirstIconUrl(Preset(EpicGames, todayAt)) != FirstIconUrl(Preset(Steam, todayAt))
    ensures Preset(EpicGames, todayAt).username == Preset(Steam, todayAt).username
    ensures Preset(EpicGames, todayAt).avatarUrl == Preset(Steam, todayAt).avatarUrl
  {
    assert EpicIcon[23] != SteamIcon[23];
  }
}
