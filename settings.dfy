/**
  The session settings the native wrapper writes into an `lt::settings_pack`:
  the settings pack `get_session` creates the session with, and the settings pack `addTorrent`
  builds from its boolean flags and applies before adding the torrent.
 */
module Settings {

  /** The six boolean settings the wrapper sets (the alert mask is not modelled). */
  datatype Pack = Pack(
    enableDht: bool,
    enableLsd: bool,
    enableUpnp: bool,
    enableNatpmp: bool,
    enableOutgoingUtp: bool,
    enableIncomingUtp: bool)

  /** The boolean parameters of the native `addTorrent`, in their declared order. */
  datatype AddFlags = AddFlags(
    seedMode: bool,
    announce: bool,
    enableDht: bool,
    enableLsd: bool,
    enableUtp: bool,
    enableTrackers: bool)

  /** The settings pack a new session starts from: every one of the six settings on. */
  function SessionDefaults(): (s: Pack)
    ensures s.enableDht && s.enableLsd && s.enableUpnp && s.enableNatpmp
    ensures s.enableOutgoingUtp && s.enableIncomingUtp
  {
    Pack(true, true, true, true, true, true)
  }

  /**
    The settings pack `addTorrent` builds from its flags: `announce` drives
    both port-mapping protocols and `enableUTP` both uTP directions, so each
    pair always agrees.
   */
  function FlagSettings(f: AddFlags): (s: Pack)
    ensures s.enableUpnp == s.enableNatpmp && s.enableOutgoingUtp == s.enableIncomingUtp
  {
    Pack(
      enableDht := f.enableDht,
      enableLsd := f.enableLsd,
      enableUpnp := f.announce,
      enableNatpmp := f.announce,
      enableOutgoingUtp := f.enableUtp,
      enableIncomingUtp := f.enableUtp)
  }

  /**
    Two flag sets give the same pack exactly when they agree on `announce`,
    `enableDHT`, `enableLSD` and `enableUTP`: neither `seedMode` nor
    `enableTrackers` reaches the settings.
   */
  lemma FlagSettingsDependsOn(f: AddFlags, g: AddFlags)
    ensures FlagSettings(f) == FlagSettings(g) <==>
              f.announce == g.announce && f.enableDht == g.enableDht &&
              f.enableLsd == g.enableLsd && f.enableUtp == g.enableUtp
  {
  }

  /** Every pack whose pairs agree comes from exactly the flags read back from it. */
  lemma FlagSettingsOnto(s: Pack, seedMode: bool, enableTrackers: bool)
    requires s.enableUpnp == s.enableNatpmp && s.enableOutgoingUtp == s.enableIncomingUtp
    ensures FlagSettings(AddFlags(seedMode, s.enableUpnp, s.enableDht, s.enableLsd, s.enableOutgoingUtp, enableTrackers)) == s
  {
  }
}
