/**
  The JSON-looking text the native wrapper streams out for torrent statuses:
  one object per status, and the array `getTorrentStats` builds by joining
  those objects with commas. Names are written as they are, without escaping.
 */
module StatusJson {

  /** The fields of an `lt::torrent_status` that the wrapper prints. */
  datatype Status = Status(name: string, state: int, peers: int, uploadRate: int, downloadRate: int)

  function DigitChar(d: nat): char
    requires d < 10
  {
    ('0' as int + d) as char
  }

  function Natural(n: nat): string
    decreases n
  {
    if n < 10 then [DigitChar(n)] else Natural(n / 10) + [DigitChar(n % 10)]
  }

  /** The decimal rendering an `ostream` gives an integer. */
  function Decimal(n: int): string
  {
    if n < 0 then "-" + Natural(-n) else Natural(n)
  }

  /** The pieces laid end to end. */
  function Render(parts: seq<string>): string
    decreases |parts|
  {
    if parts == [] then "" else parts[0] + Render(parts[1..])
  }

  /** The pieces of the object the wrapper writes for one status, under the given name. */
  function ObjectParts(name: string, st: Status): seq<string>
  {
    ["{\"name\":\"", name, "\",\"state\":", Decimal(st.state),
     ",\"peers\":", Decimal(st.peers),
     ",\"upload_rate\":", Decimal(st.uploadRate),
     ",\"download_rate\":", Decimal(st.downloadRate), "}"]
  }

  /** The object the wrapper writes for one status, under the given name. */
  function ObjectJson(name: string, st: Status): (r: string)
    ensures |r| >= 2 && r[0] == '{' && r[|r| - 1] == '}'
  {
    var p := ObjectParts(name, st);
    RenderSnoc(p[..10], "}");
    assert p == p[..10] + ["}"];
    Render(p)
  }

  /** Rendering one more piece appends it. */
  lemma {:induction false} RenderSnoc(parts: seq<string>, x: string)
    ensures Render(parts + [x]) == Render(parts) + x
    decreases |parts|
  {
    if parts == [] {
      assert parts + [x] == [x];
      assert [x][1..] == [];
    } else {
      assert (parts + [x])[1..] == parts[1..] + [x];
      RenderSnoc(parts[1..], x);
    }
  }

  /** `getTorrentStats` prints an empty name as `Unknown`. */
  function DisplayName(name: string): (r: string)
    ensures r != []
    ensures name != [] ==> r == name
  {
    if name == [] then "Unknown" else name
  }

  /** One element of the `getTorrentStats` array. */
  function StatsObject(st: Status): string
  {
    ObjectJson(DisplayName(st.name), st)
  }

  /** The object `getSwarmInfo` returns, which keeps the name as it is. */
  function SwarmObject(st: Status): string
  {
    ObjectJson(st.name, st)
  }

  /** The strings in order, with one comma between neighbours. */
  function Join(xs: seq<string>): string
    decreases |xs|
  {
    if |xs| == 0 then ""
    else if |xs| == 1 then xs[0]
    else Join(xs[..|xs| - 1]) + "," + xs[|xs| - 1]
  }

  /** The objects of the `getTorrentStats` array, in handle order. */
  function StatsObjects(statuses: seq<Status>): (objs: seq<string>)
    ensures |objs| == |statuses|
  {
    seq(|statuses|, i requires 0 <= i < |statuses| => StatsObject(statuses[i]))
  }

  /** The array `getTorrentStats` returns for a live session. */
  function StatsArray(statuses: seq<Status>): string
  {
    Bracketed(StatsObjects(statuses))
  }

  /** Adding one more element to a join adds a comma and the element, or just the element to an empty join. */
  lemma JoinStep(xs: seq<string>, i: nat)
    requires i < |xs|
    ensures Join(xs[..i + 1]) == if i == 0 then xs[0] else Join(xs[..i]) + "," + xs[i]
  {
    assert xs[..i + 1][..i] == xs[..i];
  }

  /**
    One step of the `getTorrentStats` loop: after the first `i` elements
    (and the comma owed after the last of them) comes element `i`, and a comma
    when it is not the last.
   */
  lemma StreamStep(xs: seq<string>, i: nat)
    requires i < |xs|
    ensures i < |xs| - 1 ==>
              "[" + Join(xs[..i]) + (if 0 < i then "," else "") + xs[i] + "," == "[" + Join(xs[..i + 1]) + ","
    ensures i == |xs| - 1 ==>
              "[" + Join(xs[..i]) + (if 0 < i then "," else "") + xs[i] == "[" + Join(xs[..i + 1])
  {
    JoinStep(xs, i);
  }

  /** Where element `i` starts in `Join(xs)`: each earlier element and its comma come first. */
  function Offset(xs: seq<string>, i: nat): nat
    requires i <= |xs|
  {
    if i == 0 then 0 else Offset(xs, i - 1) + |xs[i - 1]| + 1
  }

  lemma {:induction false} OffsetPrefix(xs: seq<string>, n: nat, i: nat)
    requires i <= n <= |xs|
    ensures Offset(xs[..n], i) == Offset(xs, i)
  {
    if i > 0 {
      OffsetPrefix(xs, n, i - 1);
      assert xs[..n][i - 1] == xs[i - 1];
    }
  }

  /** `Join(xs)` holds the elements' lengths plus `|xs| - 1` commas. */
  lemma {:induction false} JoinLength(xs: seq<string>)
    requires |xs| > 0
    ensures |Join(xs)| + 1 == Offset(xs, |xs|)
    decreases |xs|
  {
    if |xs| >= 2 {
      var n := |xs| - 1;
      JoinLength(xs[..n]);
      OffsetPrefix(xs, n, n);
    }
  }

  /** In `a + "," + b`, a piece `x` of `a` keeps its position, the comma follows `a` and `b` follows the comma. */
  lemma CommaSplice(a: string, b: string, o: nat, x: string)
    requires o + |x| <= |a| && a[o .. o + |x|] == x
    ensures |a + "," + b| == |a| + 1 + |b|
    ensures (a + "," + b)[o .. o + |x|] == x
    ensures o > 0 ==> (a + "," + b)[o - 1] == a[o - 1]
    ensures (a + "," + b)[|a|] == ','
    ensures (a + "," + b)[|a| + 1 .. |a| + 1 + |b|] == b
  {
    var j := a + "," + b;
    assert forall t :: o <= t < o + |x| ==> j[t] == a[t];
    assert forall t :: |a| + 1 <= t < |j| ==> j[t] == b[t - |a| - 1];
  }

  /**
    Element `i` of `xs` stands in `Join(xs)` at `Offset(xs, i)`, and every
    element after the first is preceded by a single comma.
   */
  lemma {:induction false} JoinAt(xs: seq<string>, i: nat)
    requires i < |xs|
    ensures Offset(xs, i) + |xs[i]| <= |Join(xs)|
    ensures Join(xs)[Offset(xs, i) .. Offset(xs, i) + |xs[i]|] == xs[i]
    ensures i > 0 ==> Join(xs)[Offset(xs, i) - 1] == ','
    decreases |xs|
  {
    if |xs| >= 2 {
      var n := |xs| - 1;
      var ys := xs[..n];
      assert Join(xs) == Join(ys) + "," + xs[n];
      if i < n {
        JoinAt(ys, i);
        OffsetPrefix(xs, n, i);
        assert ys[i] == xs[i];
        CommaSplice(Join(ys), xs[n], Offset(xs, i), xs[i]);
      } else {
        JoinLength(ys);
        OffsetPrefix(xs, n, n);
        CommaSplice(Join(ys), xs[n], 0, []);
      }
    }
  }

  /** `[`, the joined elements, `]`: the text `getTorrentStats` streams. */
  function Bracketed(xs: seq<string>): string
  {
    "[" + Join(xs) + "]"
  }

  /** Inside `[` … `]`, every position of `j` moves one to the right. */
  lemma InBrackets(j: string, o: nat, x: string)
    requires o + |x| <= |j| && j[o .. o + |x|] == x
    ensures |"[" + j + "]"| == |j| + 2
    ensures ("[" + j + "]")[1 + o .. 1 + o + |x|] == x
    ensures o > 0 ==> ("[" + j + "]")[o] == j[o - 1]
    ensures ("[" + j + "]")[0] == '['
  {
    var a := "[" + j + "]";
    assert forall t :: o <= t < o + |x| ==> a[1 + t] == j[t];
  }

  /** Element `i` of `xs` stands in `Bracketed(xs)` at offset `1 + Offset(xs, i)`. */
  lemma BracketAt(xs: seq<string>, i: nat)
    requires i < |xs|
    ensures 1 + Offset(xs, i) + |xs[i]| < |Bracketed(xs)|
    ensures Bracketed(xs)[1 + Offset(xs, i) .. 1 + Offset(xs, i) + |xs[i]|] == xs[i]
  {
    JoinAt(xs, i);
    InBrackets(Join(xs), Offset(xs, i), xs[i]);
  }

  /** Just before element `i` stands the `[` if it is the first element and a single comma otherwise. */
  lemma BracketSeparator(xs: seq<string>, i: nat)
    requires i < |xs|
    ensures Offset(xs, i) < |Bracketed(xs)|
    ensures Bracketed(xs)[Offset(xs, i)] == (if i == 0 then '[' else ',')
  {
    JoinAt(xs, i);
    InBrackets(Join(xs), Offset(xs, i), xs[i]);
  }

  /** `Bracketed(xs)` opens with `[`, closes with `]`, is `[]` for no elements and otherwise holds the elements and `|xs| - 1` commas. */
  lemma BracketShape(xs: seq<string>)
    ensures |Bracketed(xs)| >= 2 && Bracketed(xs)[0] == '[' && Bracketed(xs)[|Bracketed(xs)| - 1] == ']'
    ensures xs == [] ==> Bracketed(xs) == "[]"
    ensures xs != [] ==> |Bracketed(xs)| == Offset(xs, |xs|) + 1
  {
    if xs != [] {
      JoinLength(xs);
    }
  }

  /**
    In the stats array, the stats object of status `i` stands at offset
    `1 + Offset(objs, i)`, preceded by the `[` for the first status and by a
    single comma for every other.
   */
  lemma StatsArrayAt(statuses: seq<Status>, i: nat)
    requires i < |statuses|
    ensures var objs := StatsObjects(statuses);
            var a := StatsArray(statuses);
            1 + Offset(objs, i) + |objs[i]| < |a| &&
            a[1 + Offset(objs, i) .. 1 + Offset(objs, i) + |objs[i]|] == objs[i] &&
            a[Offset(objs, i)] == (if i == 0 then '[' else ',') &&
            objs[i] == StatsObject(statuses[i])
  {
    BracketAt(StatsObjects(statuses), i);
    BracketSeparator(StatsObjects(statuses), i);
  }

  /**
    The stats object differs from the swarm object only in the name: an empty
    name becomes `Unknown`, any other name is kept.
   */
  lemma StatsObjectName(st: Status)
    ensures st.name == [] ==> StatsObject(st) == SwarmObject(st.(name := "Unknown"))
    ensures st.name != [] ==> StatsObject(st) == SwarmObject(st)
  {
  }

  /** The name is copied verbatim, unescaped, right after the opening `{"name":"`. */
  lemma NameVerbatim(name: string, st: Status)
    ensures var o := ObjectJson(name, st);
            |o| > 9 + |name| && o[..9] == "{\"name\":\"" && o[9 .. 9 + |name|] == name && o[9 + |name|] == '"'
  {
    var p := ObjectParts(name, st);
    var open := "{\"name\":\"";
    var close := "\",\"state\":";
    assert p[0] == open && p[1] == name && p[2] == close;
    assert p[1..][0] == name && p[1..][1..] == p[2..];
    assert p[2..][0] == close && p[2..][1..] == p[3..];
    var rest := Render(p[3..]);
    assert Render(p[2..]) == close + rest;
    assert Render(p[1..]) == name + (close + rest);
    var o := open + (name + (close + rest));
    assert ObjectJson(name, st) == o;
    assert o[..9] == open;
    assert o[9 .. 9 + |name|] == name;
    assert o[9 + |name|] == close[0];
  }
}
