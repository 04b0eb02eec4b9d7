/**
  The native wrapper's session bookkeeping: the process-wide `global_session`,
  created lazily by `get_session` and reset by `cleanupSession`, and the JNI
  entry points that read or change it (`addTorrent`, `getTorrentStats`,
  `getSwarmInfo`, `removeTorrentByInfoHash`), plus `getInfoHash`.

  The libtorrent session is represented by its settings and by the torrents it
  holds, taken to be listed by `get_torrents()` in the order they were added.
  File reading, `bdecode` and `lt::torrent_info` are the `file` and `parse`
  parameters; each torrent's status is the one reported when it was added.
 */
module NativeSession {
  import opened Wrappers
  import opened Hex
  import opened Settings
  import opened StatusJson

  /** What `bdecode` and `lt::torrent_info` extract from a .torrent file. */
  datatype TorrentInfo = TorrentInfo(infoHash: Digest, name: string)

  /** A torrent in the session: its info-hash, where it saves, whether it was added in seed mode, and its status. */
  datatype Torrent = Torrent(infoHash: Digest, savePath: string, seedMode: bool, status: Status)

  /** An `lt::session`: the settings applied to it and its torrents. */
  datatype Session = Session(settings: Pack, torrents: seq<Torrent>)

  /** libtorrent keeps at most one torrent per info-hash. */
  predicate DistinctHashes(ts: seq<Torrent>)
  {
    forall i, j :: 0 <= i < j < |ts| ==> ts[i].infoHash != ts[j].infoHash
  }

  predicate HasTorrent(ts: seq<Torrent>, h: Digest)
  {
    exists i :: 0 <= i < |ts| && ts[i].infoHash == h
  }

  /** The session a first `get_session` creates: the default pack and no torrents. */
  function NewSession(): Session
  {
    Session(SessionDefaults(), [])
  }

  /** The statuses of the handles, in handle order. */
  function Statuses(ts: seq<Torrent>): (r: seq<Status>)
    ensures |r| == |ts|
  {
    seq(|ts|, i requires 0 <= i < |ts| => ts[i].status)
  }

  /** What `getTorrentStats` returns: `[]` without a session, the stats array otherwise. */
  function StatsJson(s: Option<Session>): string
  {
    if s.None? then "[]" else StatsArray(Statuses(s.value.torrents))
  }

  /** The index of the first handle from `k` on whose lowercase hex info-hash is exactly `hash`. */
  function MatchFrom(ts: seq<Torrent>, hash: string, k: nat): (r: Option<nat>)
    requires k <= |ts|
    ensures r.Some? ==>
              k <= r.value < |ts| && Encode(ts[r.value].infoHash) == hash &&
              forall j :: k <= j < r.value ==> Encode(ts[j].infoHash) != hash
    ensures r.None? ==> forall j :: k <= j < |ts| ==> Encode(ts[j].infoHash) != hash
    decreases |ts| - k
  {
    if k == |ts| then None
    else if Encode(ts[k].infoHash) == hash then Some(k)
    else MatchFrom(ts, hash, k + 1)
  }

  /** What `getSwarmInfo(hash)` returns. */
  function SwarmJson(s: Option<Session>, hash: string): string
  {
    if s.None? then "{}"
    else
      match MatchFrom(s.value.torrents, hash, 0)
      case None => "{}"
      case Some(k) => SwarmObject(s.value.torrents[k].status)
  }

  /** `lt::session::find_torrent`: where the torrent with info-hash `h` is, from index `k` on. */
  function FindFrom(ts: seq<Torrent>, h: Digest, k: nat): (r: Option<nat>)
    requires k <= |ts|
    ensures r.Some? ==> k <= r.value < |ts| && ts[r.value].infoHash == h
    ensures r.None? ==> forall j :: k <= j < |ts| ==> ts[j].infoHash != h
    decreases |ts| - k
  {
    if k == |ts| then None
    else if ts[k].infoHash == h then Some(k)
    else FindFrom(ts, h, k + 1)
  }

  /** The torrents other than the one with info-hash `h`, in their order. */
  function Without(ts: seq<Torrent>, h: Digest): seq<Torrent>
    decreases |ts|
  {
    if ts == [] then []
    else (if ts[0].infoHash == h then [] else [ts[0]]) + Without(ts[1..], h)
  }

  /** The process-wide native state: `global_session`, absent until first needed. */
  class Native {
    var session: Option<Session>

    ghost predicate Valid()
      reads this
    {
      session.Some? ==> DistinctHashes(session.value.torrents)
    }

    /** At load time `global_session` is empty. */
    constructor ()
      ensures Valid() && session == None
    {
      session := None;
    }

    /** `get_session`: create the session with the default pack if there is none; otherwise leave it as it is. */
    method GetSession()
      requires Valid()
      modifies this
      ensures Valid()
      ensures session == Some(if old(session).Some? then old(session).value else NewSession())
    {
      if session.None? {
        session := Some(NewSession());
      }
    }

    /** `cleanupSession`: drop the session, whether or not there was one. */
    method CleanupSession()
      modifies this
      ensures Valid() && session == None
    {
      session := None;
    }

    /**
      `addTorrent`: read and parse the file, and only then obtain the session
      (creating it if needed), apply the settings pack built from the flags, and add the
      torrent with its save path and seed-mode flag. `engineError` is whatever
      else makes `add_torrent` report an error. A torrent already present is
      never added twice; whether that counts as an error is the library's
      `duplicate_is_error` default, `duplicateIsError`. `reported` is the
      status the engine gives the new handle, under the torrent's own name.
     */
    method AddTorrent(file: Option<seq<byte>>, parse: seq<byte> -> Option<TorrentInfo>,
                      savePath: string, flags: AddFlags, engineError: bool, duplicateIsError: bool,
                      reported: Status)
      returns (ok: bool)
      requires Valid()
      modifies this
      ensures Valid()
      ensures file.None? || parse(file.value).None? ==> !ok && session == old(session)
      ensures file.Some? && parse(file.value).Some? ==>
                var info := parse(file.value).value;
                var before := if old(session).Some? then old(session).value.torrents else [];
                session.Some? &&
                session.value.settings == FlagSettings(flags) &&
                (ok <==> !engineError && !(duplicateIsError && HasTorrent(before, info.infoHash))) &&
                session.value.torrents ==
                  if ok && !HasTorrent(before, info.infoHash)
                  then before + [Torrent(info.infoHash, savePath, flags.seedMode, reported.(name := info.name))]
                  else before
    {
      if file.None? {
        return false;
      }
      var parsed := parse(file.value);
      if parsed.None? {
        return false;
      }
      var info := parsed.value;
      GetSession();
      var ses := session.value;
      ses := ses.(settings := FlagSettings(flags));
      var existing := FindFrom(ses.torrents, info.infoHash, 0);
      if engineError || existing.Some? {
        session := Some(ses);
        return !engineError && !duplicateIsError;
      }
      var t := Torrent(info.infoHash, savePath, flags.seedMode, reported.(name := info.name));
      session := Some(ses.(torrents := ses.torrents + [t]));
      ok := true;
    }

    /** `getTorrentStats`: stream one stats object per handle, a comma after every one but the last. */
    method GetTorrentStats() returns (json: string)
      ensures json == StatsJson(session)
    {
      if session.None? {
        return "[]";
      }
      var handles := session.value.torrents;
      ghost var objs := StatsObjects(Statuses(handles));
      json := "[";
      for i := 0 to |handles|
        invariant json == "[" + Join(objs[..i]) + (if 0 < i < |handles| then "," else "")
      {
        var obj := StatsObject(handles[i].status);
        StreamStep(objs, i);
        json := json + obj;
        if i < |handles| - 1 {
          json := json + ",";
        }
      }
      json := json + "]";
      assert objs[..|handles|] == objs;
    }

    /** `getSwarmInfo`: the swarm object of the first handle whose `to_hex` info-hash equals the argument. */
    method GetSwarmInfo(infoHash: string) returns (json: string)
      ensures json == SwarmJson(session, infoHash)
    {
      if session.None? {
        return "{}";
      }
      var handles := session.value.torrents;
      for i := 0 to |handles|
        invariant MatchFrom(handles, infoHash, i) == MatchFrom(handles, infoHash, 0)
      {
        var st := handles[i].status;
        var hex := ToHex(handles[i].infoHash);
        if hex == infoHash {
          return SwarmObject(st);
        }
      }
      return "{}";
    }

    /**
      `removeTorrentByInfoHash`: false without a session, for an argument
      `hex_to_sha1` rejects, or for an info-hash the session does not hold;
      otherwise that torrent is removed and nothing else changes.
     */
    method RemoveTorrentByInfoHash(infoHash: string) returns (ok: bool)
      requires Valid()
      modifies this
      ensures Valid()
      ensures ok <==> old(session).Some? && Decode(infoHash).Some? &&
                      HasTorrent(old(session).value.torrents, Decode(infoHash).value)
      ensures ok ==> session == Some(old(session).value.(torrents := Without(old(session).value.torrents, Decode(infoHash).value)))
      ensures !ok ==> session == old(session)
    {
      if session.None? {
        return false;
      }
      var hash := HexToSha1(infoHash);
      if hash.None? {
        return false;
      }
      var ts := session.value.torrents;
      var handle := FindFrom(ts, hash.value, 0);
      if handle.None? {
        return false;
      }
      var k := handle.value;
      RemoveAtIsWithout(ts, k);
      WithoutKeepsDistinct(ts, hash.value);
      session := Some(session.value.(torrents := ts[..k] + ts[k + 1..]));
      ok := true;
    }
  }

  /** `getInfoHash`: the lowercase hex info-hash of a readable, parsable .torrent file, and `""` otherwise. */
  method GetInfoHash(file: Option<seq<byte>>, parse: seq<byte> -> Option<TorrentInfo>) returns (hex: string)
    ensures file.None? || parse(file.value).None? ==> hex == ""
    ensures file.Some? && parse(file.value).Some? ==> hex == Encode(parse(file.value).value.infoHash)
  {
    if file.None? {
      return "";
    }
    var parsed := parse(file.value);
    if parsed.None? {
      return "";
    }
    hex := ToHex(parsed.value.infoHash);
  }

  /** Every non-empty `getInfoHash` answer is 40 lowercase hex digits that `hex_to_sha1` turns back into the info-hash. */
  lemma InfoHashIdentifier(h: Digest)
    ensures |Encode(h)| == 40
    ensures forall k :: 0 <= k < 40 ==> Encode(h)[k] in HexChars
    ensures Decode(Encode(h)) == Some(h)
  {
    EncodeIsLowerHex(h);
    RoundTrip(h);
  }

  /** The torrents the filter keeps are exactly those with another info-hash. */
  lemma {:induction false} WithoutMembers(ts: seq<Torrent>, h: Digest)
    ensures forall t :: t in Without(ts, h) <==> t in ts && t.infoHash != h
    decreases |ts|
  {
    if ts != [] {
      WithoutMembers(ts[1..], h);
      assert ts == [ts[0]] + ts[1..];
    }
  }

  /** Removing the one torrent with info-hash `h` from position `k` is the filter `Without(ts, h)`. */
  lemma {:induction false} RemoveAtIsWithout(ts: seq<Torrent>, k: nat)
    requires DistinctHashes(ts) && k < |ts|
    ensures ts[..k] + ts[k + 1..] == Without(ts, ts[k].infoHash)
    decreases |ts|
  {
    var h := ts[k].infoHash;
    if k == 0 {
      WithoutMissing(ts[1..], h);
    } else {
      RemoveAtIsWithout(ts[1..], k - 1);
      assert ts[1..][k - 1] == ts[k];
      assert ts[0].infoHash != h;
      assert ts[..k] == [ts[0]] + ts[1..][..k - 1];
      assert ts[k + 1..] == ts[1..][k..];
    }
  }

  /** Filtering out an info-hash that is not there changes nothing. */
  lemma {:induction false} WithoutMissing(ts: seq<Torrent>, h: Digest)
    requires forall j :: 0 <= j < |ts| ==> ts[j].infoHash != h
    ensures Without(ts, h) == ts
    decreases |ts|
  {
    if ts != [] {
      WithoutMissing(ts[1..], h);
      assert ts == [ts[0]] + ts[1..];
    }
  }

  /** Taking one torrent out keeps the info-hashes of the others distinct. */
  lemma RemoveAtKeepsDistinct(ts: seq<Torrent>, k: nat)
    requires DistinctHashes(ts) && k < |ts|
    ensures DistinctHashes(ts[..k] + ts[k + 1..])
  {
    var r := ts[..k] + ts[k + 1..];
    forall i, j | 0 <= i < j < |r|
      ensures r[i].infoHash != r[j].infoHash
    {
      var i' := if i < k then i else i + 1;
      var j' := if j < k then j else j + 1;
      assert r[i] == ts[i'] && r[j] == ts[j'];
    }
  }

  /**
    With distinct info-hashes, the filter keeps them distinct and loses exactly
    one torrent when `h` is present and none when it is not.
   */
  lemma WithoutKeepsDistinct(ts: seq<Torrent>, h: Digest)
    requires DistinctHashes(ts)
    ensures DistinctHashes(Without(ts, h))
    ensures |Without(ts, h)| == if HasTorrent(ts, h) then |ts| - 1 else |ts|
  {
    if HasTorrent(ts, h) {
      var k :| 0 <= k < |ts| && ts[k].infoHash == h;
      RemoveAtIsWithout(ts, k);
      RemoveAtKeepsDistinct(ts, k);
    } else {
      WithoutMissing(ts, h);
    }
  }

  /**
    `getTorrentStats` without a session, or with one that holds no torrent, is
    `[]`; it always opens with `[` and closes with `]`, and otherwise holds the
    objects of its torrents and one comma fewer than there are torrents.
   */
  lemma StatsJsonShape(s: Option<Session>)
    ensures s.None? || s.value.torrents == [] ==> StatsJson(s) == "[]"
    ensures |StatsJson(s)| >= 2 && StatsJson(s)[0] == '[' && StatsJson(s)[|StatsJson(s)| - 1] == ']'
    ensures s.Some? && s.value.torrents != [] ==>
              |StatsJson(s)| == Offset(StatsObjects(Statuses(s.value.torrents)), |s.value.torrents|) + 1
  {
    if s.Some? {
      BracketShape(StatsObjects(Statuses(s.value.torrents)));
    }
  }

  /**
    In `getTorrentStats`, the stats object of torrent `i` (in session order)
    stands at offset `1 + Offset(objs, i)`, preceded by the `[` for the first
    torrent and by a single comma for every other.
   */
  lemma StatsJsonAt(s: Session, i: nat)
    requires i < |s.torrents|
    ensures var objs := StatsObjects(Statuses(s.torrents));
            var a := StatsJson(Some(s));
            1 + Offset(objs, i) + |objs[i]| < |a| &&
            a[1 + Offset(objs, i) .. 1 + Offset(objs, i) + |objs[i]|] == objs[i] &&
            a[Offset(objs, i)] == (if i == 0 then '[' else ',') &&
            objs[i] == StatsObject(s.torrents[i].status)
  {
    StatsArrayAt(Statuses(s.torrents), i);
  }

  /**
    `getSwarmInfo` answers `{}` exactly when there is no session or no handle's
    lowercase hex info-hash equals the argument.
   */
  lemma SwarmEmptyIff(s: Option<Session>, hash: string)
    ensures SwarmJson(s, hash) == "{}" <==>
              s.None? || forall j :: 0 <= j < |s.value.torrents| ==> Encode(s.value.torrents[j].infoHash) != hash
  {
    if s.Some? {
      var m := MatchFrom(s.value.torrents, hash, 0);
      if m.Some? {
        var st := s.value.torrents[m.value].status;
        NameVerbatim(st.name, st);
        assert |SwarmObject(st)| > 2;
      }
    }
  }

  /**
    An argument holding any character outside `0123456789abcdef`, an upper-case
    hex digit included, never matches: `getSwarmInfo` answers `{}`.
   */
  lemma SwarmCaseSensitive(s: Option<Session>, hash: string, k: nat)
    requires k < |hash| && hash[k] !in HexChars
    ensures SwarmJson(s, hash) == "{}"
  {
    if s.Some? {
      var ts := s.value.torrents;
      forall j | 0 <= j < |ts|
        ensures Encode(ts[j].infoHash) != hash
      {
        EncodeIsLowerHex(ts[j].infoHash);
      }
      SwarmEmptyIff(s, hash);
    }
  }

  /** With distinct info-hashes, asking for the hex info-hash of torrent `k` describes torrent `k`. */
  lemma SwarmFindsTorrent(s: Session, k: nat)
    requires DistinctHashes(s.torrents) && k < |s.torrents|
    ensures SwarmJson(Some(s), Encode(s.torrents[k].infoHash)) == SwarmObject(s.torrents[k].status)
  {
    var ts := s.torrents;
    var hash := Encode(ts[k].infoHash);
    assert Encode(ts[k].infoHash) == hash;
    var m := MatchFrom(ts, hash, 0);
    var j := m.value;
    EncodeInjective(ts[j].infoHash, ts[k].infoHash);
    assert j == k;
  }
}
