/**
 Header handling of the HTTP proxy, src/relay/tcprelay/http_local.rs: the keep-alive decision,
 the removal of hop-by-hop headers, and the header that carries the decision to the next hop.
 */
module HttpHop {
  import opened Bytes

  /** Any other version aborts the original. */
  datatype Version = Http10 | Http11

  function LowerChar(c: char): (l: char)
  {
    if 'A' <= c <= 'Z' then c + 32 as char else c
  }

  /** ASCII case is ignored in header names and in the words looked for. */
  function Lower(s: string): (l: string)
  {
    seq(|s|, i requires 0 <= i < |s| => LowerChar(s[i]))
  }

  /** A value that reads as a string; any other is passed over. */
  predicate Readable(value: string)
  {
    forall i :: 0 <= i < |value| ==> ' ' <= value[i] < 127 as char || value[i] == '\t'
  }

  /** The parts of a value between its commas. */
  function Split(s: string): (parts: seq<string>)
    ensures parts != []
  {
    if s == [] then [[]]
    else
      var rest := Split(s[1..]);
      if s[0] == ',' then [[]] + rest else [[s[0]] + rest[0]] + rest[1..]
  }

  function Join(parts: seq<string>): (s: string)
    requires parts != []
  {
    if |parts| == 1 then parts[0] else parts[0] + [','] + Join(parts[1..])
  }

  lemma {:induction false} SplitCutsAll(s: string)
    ensures forall i :: 0 <= i < |Split(s)| ==> ',' !in Split(s)[i]
  {
    if s != [] {
      SplitCutsAll(s[1..]);
    }
  }

  /** Splitting loses nothing and leaves no comma. */
  lemma {:induction false} JoinSplit(s: string)
    ensures Join(Split(s)) == s
    ensures forall i :: 0 <= i < |Split(s)| ==> ',' !in Split(s)[i]
  {
    SplitCutsAll(s);
    if s != [] {
      var rest := Split(s[1..]);
      JoinSplit(s[1..]);
      if s[0] == ',' {
        assert Split(s)[1..] == rest;
        assert s == [] + [','] + s[1..];
      } else {
        assert Split(s)[1..] == rest[1..];
        assert s == [s[0]] + s[1..];
        if |rest| > 1 {
          assert [s[0]] + (rest[0] + [','] + Join(rest[1..])) == ([s[0]] + rest[0]) + [','] + Join(rest[1..]);
        }
      }
    }
  }

  lemma JoinFirst(parts: seq<string>)
    requires parts != [] && parts[0] != []
    ensures var shorter := [parts[0][1..]] + parts[1..];
            Join(parts) != [] && Join(parts)[0] == parts[0][0] && Join(parts)[1..] == Join(shorter)
  {
    var shorter := [parts[0][1..]] + parts[1..];
    assert shorter[1..] == parts[1..];
  }

  /** And it is the only way to cut the value at its commas. */
  lemma {:induction false} SplitJoin(parts: seq<string>)
    requires parts != [] && forall i :: 0 <= i < |parts| ==> ',' !in parts[i]
    ensures Split(Join(parts)) == parts
    decreases |parts|, |parts[0]|
  {
    var s := Join(parts);
    if parts[0] != [] {
      var c, shorter := parts[0][0], [parts[0][1..]] + parts[1..];
      JoinFirst(parts);
      assert c in parts[0];
      SplitJoin(shorter);
      assert [c] + parts[0][1..] == parts[0];
      assert [parts[0]] + parts[1..] == parts;
    } else if |parts| > 1 {
      assert s[1..] == Join(parts[1..]);
      SplitJoin(parts[1..]);
      assert [[]] + parts[1..] == parts;
    }
  }

  predicate Blank(c: char) { c == ' ' || c == '\t' }

  /** Leading blanks, and nothing else, are cut off. */
  function TrimLeft(s: string): (t: string)
    ensures |t| <= |s| && t == s[|s| - |t|..]
    ensures forall i :: 0 <= i < |s| - |t| ==> Blank(s[i])
    ensures t != [] ==> !Blank(t[0])
  {
    if s != [] && Blank(s[0]) then TrimLeft(s[1..]) else s
  }

  /** Trailing blanks, and nothing else, are cut off. */
  function TrimRight(s: string): (t: string)
    ensures t <= s
    ensures forall i :: |t| <= i < |s| ==> Blank(s[i])
    ensures t != [] ==> !Blank(t[|t| - 1])
  {
    if s != [] && Blank(s[|s| - 1]) then TrimRight(s[..|s| - 1]) else s
  }

  function Trim(s: string): (t: string)
  {
    TrimRight(TrimLeft(s))
  }

  const CONNECTION := "connection"
  const PROXY_CONNECTION := "proxy-connection"
  const KEEP_ALIVE := "keep-alive"
  const CLOSE := "close"

  const HOP_BY_HOP := ["Keep-Alive", "Transfer-Encoding", "TE", "Connection", "Trailer", "Upgrade",
                       "Proxy-Authorization", "Proxy-Authenticate", "Proxy-Connection"]

  type Fields = map<string, seq<string>>

  function Values(fields: Fields, name: string): (values: seq<string>)
  {
    if name in fields then fields[name] else []
  }

  /** The words of a value, without case and surrounding blanks. */
  function Word(value: string, k: nat): (w: string)
    requires k < |Split(value)|
  {
    Lower(Trim(Split(value)[k]))
  }

  predicate AsksKeepAlive(value: string)
  {
    exists k :: 0 <= k < |Split(value)| && Word(value, k) == KEEP_ALIVE
  }

  /** What one value says about the connection, if anything. */
  function Vote(value: string): (v: Option<bool>)
  {
    if !Readable(value) then None
    else if Lower(value) == CLOSE then Some(false)
    else if AsksKeepAlive(value) then Some(true)
    else None
  }

  function Decide(default: bool, values: seq<string>): (keep: bool)
  {
    if values == [] then default
    else
      var v := Vote(values[|values| - 1]);
      if v.Some? then v.value else Decide(default, values[..|values| - 1])
  }

  /** The last value that says anything decides; without one, the default does. */
  lemma {:induction false} LastVoteDecides(default: bool, values: seq<string>)
    ensures (forall k :: 0 <= k < |values| ==> Vote(values[k]).None?) ==> Decide(default, values) == default
    ensures forall k :: 0 <= k < |values| && Vote(values[k]).Some?
                        && (forall j :: k < j < |values| ==> Vote(values[j]).None?)
                        ==> Decide(default, values) == Vote(values[k]).value
  {
    hide Vote;
    if values != [] {
      var n := |values| - 1;
      var before := values[..n];
      LastVoteDecides(default, before);
      assert forall k :: 0 <= k < n ==> before[k] == values[k];
    }
  }

  function Default(version: Version): (keep: bool)
  {
    version == Http11
  }

  function KeepAlive(version: Version, fields: Fields, checkProxy: bool): (keep: bool)
  {
    Decide(Decide(Default(version), if checkProxy then Values(fields, PROXY_CONNECTION) else []),
           Values(fields, CONNECTION))
  }

  /** A value that is read as a list of header names. */
  predicate Lists(value: string)
  {
    Readable(value) && Lower(value) != CLOSE
  }

  /** The first `k` words of a value, but `keep-alive`. */
  function Words(value: string, k: nat): (names: set<string>)
    requires k <= |Split(value)|
  {
    if k == 0 then {}
    else Words(value, k - 1) + if Word(value, k - 1) == KEEP_ALIVE then {} else {Word(value, k - 1)}
  }

  /** The names a list of values nominates for removal. */
  function Named(values: seq<string>): (names: set<string>)
  {
    if values == [] then {}
    else
      var value := values[|values| - 1];
      Named(values[..|values| - 1]) + if Lists(value) then Words(value, |Split(value)|) else {}
  }

  lemma {:induction false} WordsMeans(value: string, k: nat, name: string)
    requires k <= |Split(value)|
    ensures name in Words(value, k) <==> name != KEEP_ALIVE && exists j :: 0 <= j < k && Word(value, j) == name
  {
    hide Word, Split;
    if k > 0 {
      WordsMeans(value, k - 1, name);
    }
  }

  /** A name is nominated by exactly the words of the values that are lists. */
  lemma {:induction false} NamedMeans(values: seq<string>, name: string)
    ensures name in Named(values) <==>
            name != KEEP_ALIVE && exists i, j :: 0 <= i < |values| && Lists(values[i])
                                                 && 0 <= j < |Split(values[i])| && Word(values[i], j) == name
  {
    hide Word, Split, Lists;
    if values != [] {
      var n := |values| - 1;
      var before := values[..n];
      NamedMeans(before, name);
      WordsMeans(values[n], |Split(values[n])|, name);
      assert forall i :: 0 <= i < n ==> before[i] == values[i];
      if i, j :| 0 <= i < |values| && Lists(values[i]) && 0 <= j < |Split(values[i])| && Word(values[i], j) == name {
        if i < n {
          assert Lists(before[i]) && Word(before[i], j) == name;
        }
      }
    }
  }

  function Nominated(fields: Fields): (names: set<string>)
  {
    Named(Values(fields, CONNECTION)) + Named(Values(fields, PROXY_CONNECTION))
  }

  /** A list of header names, without case. */
  function Names(names: seq<string>): (n: set<string>)
  {
    set k | 0 <= k < |names| :: Lower(names[k])
  }

  /** What is left of a message's headers: all but the hop-by-hop ones and the nominated ones. */
  function Cleared(fields: Fields): (left: Fields)
  {
    fields - (Names(HOP_BY_HOP) + Nominated(fields))
  }

  function WithKeepAlive(version: Version, fields: Fields, keep: bool): (f: Fields)
  {
    if keep == Default(version) then fields
    else fields[CONNECTION := [if keep then KEEP_ALIVE else CLOSE]]
  }

  lemma ConnectionIsHop()
    ensures CONNECTION in Names(HOP_BY_HOP) && PROXY_CONNECTION in Names(HOP_BY_HOP)
  {
    assert Lower(HOP_BY_HOP[3]) == CONNECTION;
    assert Lower(HOP_BY_HOP[8]) == PROXY_CONNECTION;
  }

  lemma ConnectionIsCleared(fields: Fields)
    ensures CONNECTION !in Cleared(fields) && PROXY_CONNECTION !in Cleared(fields)
    ensures Nominated(Cleared(fields)) == {}
  {
    hide Names;
    ConnectionIsHop();
  }

  /** Clearing twice is clearing once. */
  lemma ClearedOnce(fields: Fields)
    ensures Cleared(Cleared(fields)) == Cleared(fields)
  {
    ConnectionIsCleared(fields);
  }

  predicate Plain(s: string)
  {
    forall i :: 0 <= i < |s| ==> s[i] == '-' || 'a' <= s[i] <= 'z'
  }

  lemma PlainReads(s: string)
    requires Plain(s)
    ensures Readable(s) && Lower(s) == s
  {
  }

  lemma PlainTrims(s: string)
    requires Plain(s)
    ensures Trim(s) == s
  {
    hide Plain, Blank;
    if s != [] {
      PlainIsNotBlank(s, 0);
      PlainIsNotBlank(s, |s| - 1);
    }
  }

  lemma PlainIsNotBlank(s: string, i: nat)
    requires Plain(s) && i < |s|
    ensures !Blank(s[i])
  {
  }

  /** A word in lower case without blanks and commas stands for itself. */
  lemma PlainWord(s: string)
    requires Plain(s)
    ensures Readable(s) && Lower(s) == s && Split(s) == [s] && Word(s, 0) == s
  {
    hide Trim, Lower, Readable;
    PlainReads(s);
    PlainTrims(s);
    SplitJoin([s]);
  }

  // The same without splitting, trimming and lower case

  ghost predicate Blanks(s: string)
  {
    forall i :: 0 <= i < |s| ==> s[i] == ' ' || s[i] == '\t'
  }

  /** One letter or sign, in either case. */
  ghost predicate SameLetter(c: char, d: char)
  {
    || c == d
    || ('A' <= c <= 'Z' && d as int == c as int + 32)
    || ('A' <= d <= 'Z' && c as int == d as int + 32)
  }

  ghost predicate SameWord(s: string, t: string)
  {
    |s| == |t| && forall i :: 0 <= i < |s| ==> SameLetter(s[i], t[i])
  }

  /** A part of a list says a word: in either case, with blanks around it. */
  ghost predicate Says(part: string, word: string)
  {
    exists i, j :: 0 <= i <= j <= |part| && SaysAt(part, word, i, j)
  }

  ghost predicate SaysAt(part: string, word: string, i: nat, j: nat)
    requires i <= j <= |part|
  {
    Blanks(part[..i]) && Blanks(part[j..]) && SameWord(part[i..j], word)
  }

  /** Something that can be a word of a list. */
  ghost predicate Bare(word: string)
  {
    && (forall i :: 0 <= i < |word| ==> !('A' <= word[i] <= 'Z'))
    && (word != [] ==> !Blank(word[0]) && !Blank(word[|word| - 1]))
  }

  /** Comparing in lower case is comparing without case. */
  lemma LowerIgnoresCase(s: string, t: string)
    ensures Lower(s) == Lower(t) <==> SameWord(s, t)
  {
    if Lower(s) == Lower(t) {
      assert |s| == |Lower(s)| == |Lower(t)| == |t|;
      forall i | 0 <= i < |s|
        ensures SameLetter(s[i], t[i])
      {
        assert LowerChar(s[i]) == Lower(s)[i] == Lower(t)[i] == LowerChar(t[i]);
        LetterIgnoresCase(s[i], t[i]);
      }
    } else if SameWord(s, t) {
      forall i | 0 <= i < |s|
        ensures Lower(s)[i] == Lower(t)[i]
      {
        LetterIgnoresCase(s[i], t[i]);
      }
    }
  }

  lemma LetterIgnoresCase(c: char, d: char)
    ensures LowerChar(c) == LowerChar(d) <==> SameLetter(c, d)
  {
  }

  lemma {:induction false} TrimLeftSkips(s: string, i: nat)
    requires i <= |s| && Blanks(s[..i]) && (i < |s| ==> !Blank(s[i]))
    ensures TrimLeft(s) == s[i..]
  {
    if i > 0 {
      assert Blank(s[..i][0]);
      assert s[1..][..i - 1] == s[..i][1..];
      TrimLeftSkips(s[1..], i - 1);
    }
  }

  lemma {:induction false} TrimRightSkips(s: string, j: nat)
    requires j <= |s| && Blanks(s[j..]) && (j > 0 ==> !Blank(s[j - 1]))
    ensures TrimRight(s) == s[..j]
  {
    var n := |s| - 1;
    if j <= n {
      assert Blank(s[j..][n - j]);
      assert s[..n][j..] == s[j..][..n - j];
      TrimRightSkips(s[..n], j);
    }
  }

  /** Trimming cuts the blanks off both ends, and nothing else. */
  lemma TrimIs(s: string, i: nat, j: nat)
    requires i <= j <= |s| && Blanks(s[..i]) && Blanks(s[j..])
    requires i < j ==> !Blank(s[i]) && !Blank(s[j - 1])
    ensures Trim(s) == s[i..j]
  {
    hide TrimLeft, TrimRight, Blank;
    if i == j {
      AllBlank(s, i);
      TrimLeftSkips(s, |s|);
    } else {
      hide Blanks;
      TrimLeftSkips(s, i);
      assert s[i..][j - i..] == s[j..];
      assert s[i..][j - i - 1] == s[j - 1];
      TrimRightSkips(s[i..], j - i);
    }
  }

  lemma AllBlank(s: string, i: nat)
    requires i <= |s| && Blanks(s[..i]) && Blanks(s[i..])
    ensures Blanks(s[..|s|])
  {
    assert s[..|s|] == s[..i] + s[i..];
  }

  lemma Trimmed(s: string) returns (i: nat, j: nat)
    ensures i <= j <= |s| && Blanks(s[..i]) && Blanks(s[j..]) && Trim(s) == s[i..j]
    ensures i < j ==> !Blank(s[i]) && !Blank(s[j - 1])
  {
    hide TrimLeft, TrimRight;
    var t := TrimLeft(s);
    var u := TrimRight(t);
    i := |s| - |t|;
    j := i + |u|;
    assert t == s[i..] && t[|u|..] == s[j..] && u == s[i..j];
    assert forall k :: 0 <= k < |s| - j ==> s[j..][k] == t[|u| + k];
  }

  lemma BareIsLower(word: string)
    ensures (forall i :: 0 <= i < |word| ==> !('A' <= word[i] <= 'Z')) <==> Lower(word) == word
  {
    if Lower(word) == word {
      assert forall i :: 0 <= i < |word| ==> LowerChar(word[i]) == word[i];
    }
  }

  lemma SameBlank(c: char, d: char)
    requires SameLetter(c, d)
    ensures Blank(c) <==> Blank(d)
  {
  }

  lemma LowerTwice(s: string)
    ensures Lower(Lower(s)) == Lower(s)
  {
  }

  lemma SpokenIsWord(part: string, w: string)
    requires Bare(w) && Says(part, w)
    ensures Lower(Trim(part)) == w
  {
    hide Blanks, SameLetter, Blank, Trim, Lower;
    var i, j :| 0 <= i <= j <= |part| && SaysAt(part, w, i, j);
    if i < j {
      SameBlank(part[i..j][0], w[0]);
      SameBlank(part[i..j][j - i - 1], w[j - i - 1]);
    }
    TrimIs(part, i, j);
    LowerIgnoresCase(part[i..j], w);
    BareIsLower(w);
  }

  lemma WordIsSpoken(part: string, w: string)
    requires Lower(Trim(part)) == w
    ensures Bare(w) && Says(part, w)
  {
    hide Blanks, SameLetter, Blank, Trim, Lower;
    var i, j := Trimmed(part);
    var t := part[i..j];
    LowerTwice(t);
    BareIsLower(w);
    LowerIgnoresCase(t, w);
    if i < j {
      SameBlank(t[0], w[0]);
      SameBlank(t[j - i - 1], w[j - i - 1]);
    }
    assert SaysAt(part, w, i, j);
  }

  /** A word of a list is what the part between two commas says. */
  lemma WordIff(parts: seq<string>, k: nat, w: string)
    requires k < |parts| && forall i :: 0 <= i < |parts| ==> ',' !in parts[i]
    ensures Split(Join(parts)) == parts
    ensures Word(Join(parts), k) == w <==> Bare(w) && Says(parts[k], w)
  {
    hide Split, Join, Says, Bare, Trim, Lower;
    SplitJoin(parts);
    if Word(Join(parts), k) == w {
      WordIsSpoken(parts[k], w);
    } else if Bare(w) && Says(parts[k], w) {
      SpokenIsWord(parts[k], w);
    }
  }

  /** A character that makes a value unreadable: a control character but the tab, or beyond ASCII. */
  ghost predicate Opaque(c: char)
  {
    (c as int < 32 && c as int != 9) || c as int >= 127
  }

  /**
   What a value votes, as a list of parts between commas: to close if all of it is that word,
   otherwise to keep the connection if some part says so, unless it cannot be read.
   */
  lemma VoteIff(parts: seq<string>)
    requires parts != [] && forall i :: 0 <= i < |parts| ==> ',' !in parts[i]
    ensures var value := Join(parts);
            var unread := exists i :: 0 <= i < |value| && Opaque(value[i]);
            && (Vote(value) == Some(false) <==> !unread && SameWord(value, "close"))
            && (Vote(value) == Some(true) <==> !unread && !SameWord(value, "close")
                                               && exists k :: 0 <= k < |parts| && Says(parts[k], "keep-alive"))
  {
    hide Split, Join, Says, SameWord, Lower, Word;
    var value := Join(parts);
    SplitJoin(parts);
    LowerIgnoresCase(value, "close");
    PlainReads("close");
    ReadableIff(value);
    assert Bare("keep-alive");
    forall k | 0 <= k < |parts|
      ensures Word(value, k) == "keep-alive" <==> Says(parts[k], "keep-alive")
    {
      WordIff(parts, k, "keep-alive");
    }
  }

  lemma ReadableIff(value: string)
    ensures Readable(value) <==> !exists i :: 0 <= i < |value| && Opaque(value[i])
  {
    if !Readable(value) {
      var i :| 0 <= i < |value| && !(' ' <= value[i] < 127 as char || value[i] == '\t');
      assert Opaque(value[i]);
    }
  }

  /** A value nominates a header: it can be read, is not `close`, and a part of it says the name. */
  ghost predicate Nominates(value: string, name: string)
  {
    && (forall i :: 0 <= i < |value| ==> !Opaque(value[i])) && !SameWord(value, "close")
    && Bare(name) && exists j :: 0 <= j < |Split(value)| && Says(Split(value)[j], name)
  }

  /** A header is nominated exactly by the values of the two connection headers, and never `keep-alive`. */
  lemma NominatedIff(fields: Fields, name: string)
    ensures name in Nominated(fields) <==>
            && name != "keep-alive"
            && exists header, i :: (header == "connection" || header == "proxy-connection") && header in fields
                                   && 0 <= i < |fields[header]| && Nominates(fields[header][i], name)
  {
    hide Named, Nominates;
    NamedIff(Values(fields, "connection"), name);
    NamedIff(Values(fields, "proxy-connection"), name);
  }

  lemma NamedIff(values: seq<string>, name: string)
    ensures name in Named(values) <==>
            name != "keep-alive" && exists i :: 0 <= i < |values| && Nominates(values[i], name)
  {
    hide Named, Lists, Word, Nominates;
    NamedMeans(values, name);
    forall i | 0 <= i < |values|
      ensures Nominates(values[i], name) <==>
              Lists(values[i]) && exists j :: 0 <= j < |Split(values[i])| && Word(values[i], j) == name
    {
      ListNames(values[i], name);
    }
  }

  lemma ListNames(value: string, name: string)
    ensures Nominates(value, name) <==>
            Lists(value) && exists j :: 0 <= j < |Split(value)| && Word(value, j) == name
  {
    hide Split, Says, SameWord, Bare, Readable, Word, Opaque;
    ReadableIff(value);
    LowerIgnoresCase(value, "close");
    PlainReads("close");
    JoinSplit(value);
    forall j | 0 <= j < |Split(value)|
      ensures Word(value, j) == name <==> Bare(name) && Says(Split(value)[j], name)
    {
      WordIff(Split(value), j, name);
    }
  }

  /** The nine headers that are never passed on. */
  lemma HopNames()
    ensures Names(HOP_BY_HOP) == {"keep-alive", "transfer-encoding", "te", "connection", "trailer", "upgrade",
                                  "proxy-authorization", "proxy-authenticate", "proxy-connection"}
  {
    hide Names, Lower;
    var n := ["keep-alive", "transfer-encoding", "te", "connection", "trailer", "upgrade",
              "proxy-authorization", "proxy-authenticate", "proxy-connection"];
    HopNames1();
    HopNames2();
    HopNames3();
    NamesOf(HOP_BY_HOP, n);
    NineNames(n);
  }

  lemma NineNames(n: seq<string>)
    requires |n| == 9
    ensures forall x :: x in n <==> x in {n[0], n[1], n[2], n[3], n[4], n[5], n[6], n[7], n[8]}
  {
  }

  lemma HopNames1()
    ensures Lower("Keep-Alive") == "keep-alive" && Lower("Transfer-Encoding") == "transfer-encoding"
    ensures Lower("TE") == "te" && Lower("Connection") == "connection"
  {
  }

  lemma HopNames2()
    ensures Lower("Trailer") == "trailer" && Lower("Upgrade") == "upgrade"
    ensures Lower("Proxy-Authorization") == "proxy-authorization"
  {
  }

  lemma HopNames3()
    ensures Lower("Proxy-Authenticate") == "proxy-authenticate"
    ensures Lower("Proxy-Connection") == "proxy-connection"
  {
  }

  lemma NamesOf(names: seq<string>, lower: seq<string>)
    requires |names| == |lower| && forall k :: 0 <= k < |names| ==> Lower(names[k]) == lower[k]
    ensures forall x :: x in Names(names) <==> x in lower
  {
    hide Lower;
    forall x
      ensures x in Names(names) <==> x in lower
    {
      if x in lower {
        var k :| 0 <= k < |lower| && lower[k] == x;
        assert Lower(names[k]) == x;
      }
    }
  }

  /** Without the two headers the version decides. */
  lemma VersionDecides(version: Version, fields: Fields, checkProxy: bool)
    requires "connection" !in fields && "proxy-connection" !in fields
    ensures KeepAlive(version, fields, checkProxy) <==> version == Http11
  {
  }

  /** The last vote of `Connection` decides, whatever `Proxy-Connection` says; then that one's, if it counts. */
  lemma ConnectionDecides(version: Version, fields: Fields, checkProxy: bool, k: nat)
    ensures LastVote(Values(fields, "connection"), k) ==>
              KeepAlive(version, fields, checkProxy) == Vote(Values(fields, "connection")[k]).value
    ensures (forall i :: 0 <= i < |Values(fields, "connection")| ==> Vote(Values(fields, "connection")[i]).None?)
            && checkProxy && LastVote(Values(fields, "proxy-connection"), k) ==>
              KeepAlive(version, fields, checkProxy) == Vote(Values(fields, "proxy-connection")[k]).value
  {
    hide Vote, Decide;
    var a, b := Values(fields, "proxy-connection"), Values(fields, "connection");
    LastVoteDecides(version == Http11, a);
    LastVoteDecides(Decide(version == Http11, a), b);
    LastVoteDecides(Decide(version == Http11, []), b);
  }

  lemma OwnWordsVote()
    ensures Vote(KEEP_ALIVE) == Some(true) && Vote(CLOSE) == Some(false)
  {
    hide Readable, Lower, Split, Word;
    PlainWord(KEEP_ALIVE);
    PlainWord(CLOSE);
    assert |KEEP_ALIVE| != |CLOSE|;
  }

  /** Everything said about the connection, in the order it is considered. */
  function Votes(fields: Fields, checkProxy: bool): (values: seq<string>)
  {
    (if checkProxy then Values(fields, PROXY_CONNECTION) else []) + Values(fields, CONNECTION)
  }

  /** `k` is the last value that says anything. */
  ghost predicate LastVote(values: seq<string>, k: nat)
  {
    k < |values| && Vote(values[k]).Some? && forall j :: k < j < |values| ==> Vote(values[j]).None?
  }

  /** Considering two lists in turn is considering them as one. */
  lemma {:induction false} DecideConcat(default: bool, a: seq<string>, b: seq<string>)
    ensures Decide(Decide(default, a), b) == Decide(default, a + b)
  {
    hide Vote;
    if b == [] {
      assert a + b == a;
    } else {
      var n := |b| - 1;
      DecideConcat(default, a, b[..n]);
      assert (a + b)[..|a| + n] == a + b[..n];
    }
  }

  /** A list decides for the default exactly when its last vote, if there is one, does. */
  lemma {:induction false} DefaultIff(default: bool, values: seq<string>)
    ensures Decide(default, values) == default <==>
            forall k: nat :: LastVote(values, k) ==> Vote(values[k]).value == default
  {
    hide Vote;
    if values != [] {
      var n := |values| - 1;
      if Vote(values[n]).Some? {
        assert LastVote(values, n);
        assert forall k: nat :: LastVote(values, k) ==> k == n;
      } else {
        var before := values[..n];
        DefaultIff(default, before);
        assert forall j :: 0 <= j < n ==> before[j] == values[j];
        assert forall k: nat :: LastVote(values, k) <==> LastVote(before, k);
      }
    }
  }

  /**
   The next hop reads the decision back exactly when the decision is not the default of the
   version, which alone is never written out, or the last header value that says anything about
   the connection agrees with it.
   */
  lemma DecisionCarriedIff(version: Version, fields: Fields, keep: bool, checkProxy: bool)
    ensures KeepAlive(version, WithKeepAlive(version, fields, keep), checkProxy) == keep <==>
            || keep != Default(version)
            || var values := Votes(fields, checkProxy);
               forall k: nat :: LastVote(values, k) ==> Vote(values[k]).value == keep
  {
    hide Vote, LastVote;
    if keep == Default(version) {
      DecideConcat(keep, if checkProxy then Values(fields, PROXY_CONNECTION) else [], Values(fields, CONNECTION));
      DefaultIff(keep, Votes(fields, checkProxy));
    } else {
      OwnWordsVote();
    }
  }

  /** Deciding to keep an HTTP/1.1 connection does not undo a `close` that is still there. */
  lemma DecisionLost()
    ensures var fields: Fields := map[CONNECTION := [CLOSE]];
            !KeepAlive(Http11, WithKeepAlive(Http11, fields, true), true)
  {
    OwnWordsVote();
  }

  /** Once the hop-by-hop headers are cleared the next hop always reads the decision back. */
  lemma DecisionSurvives(version: Version, fields: Fields, keep: bool, checkProxy: bool)
    ensures KeepAlive(version, WithKeepAlive(version, Cleared(fields), keep), checkProxy) == keep
  {
    ConnectionIsCleared(fields);
    DecisionCarriedIff(version, Cleared(fields), keep, checkProxy);
  }

  /** Header names are kept in lower case; a name may have several values. */
  class HeaderMap {
    var fields: Fields

    constructor (fields: Fields)
      ensures this.fields == fields
    {
      this.fields := fields;
    }

    method Remove(name: string) returns (found: bool)
      modifies this
      ensures fields == old(fields) - {Lower(name)}
      ensures found <==> Lower(name) in old(fields)
    {
      found := Lower(name) in fields;
      fields := fields - {Lower(name)};
    }

    method Insert(name: string, value: string)
      modifies this
      ensures fields == old(fields)[Lower(name) := [value]]
    {
      fields := fields[Lower(name) := [value]];
    }

    method RemoveAll(names: seq<string>)
      modifies this
      ensures fields == old(fields) - Names(names)
    {
      for i := 0 to |names|
        invariant fields == old(fields) - Names(names[..i])
      {
        assert Names(names[..i + 1]) == Names(names[..i]) + {Lower(names[i])} by {
          assert names[..i + 1] == names[..i] + [names[i]];
          NamesSnoc(names[..i], names[i]);
        }
        var found := Remove(names[i]);
        while found
          invariant fields == old(fields) - Names(names[..i + 1])
          decreases found
        {
          found := Remove(names[i]);
        }
      }
      assert names[..|names|] == names;
    }
  }

  lemma NamesSnoc(names: seq<string>, name: string)
    ensures Names(names + [name]) == Names(names) + {Lower(name)}
  {
    var more := names + [name];
    assert more[|names|] == name;
    forall n | n in Names(names) ensures n in Names(more) {
      var k :| 0 <= k < |names| && Lower(names[k]) == n;
      assert more[k] == names[k];
    }
  }

  /** One value's part of the loop in `CheckKeepAlive`. */
  method Consider(value: string, before: bool) returns (keep: bool)
    ensures keep == if Vote(value).Some? then Vote(value).value else before
  {
    hide Word, Lower, Readable, Split;
    keep := before;
    if Readable(value) {
      if Lower(value) == CLOSE {
        keep := false;
      } else {
        for k := 0 to |Split(value)|
          invariant keep == before
          invariant forall j :: 0 <= j < k ==> Word(value, j) != KEEP_ALIVE
        {
          if Word(value, k) == KEEP_ALIVE {
            keep := true;
            break;
          }
        }
      }
    }
  }

  method CheckKeepAlive(version: Version, headers: HeaderMap, checkProxy: bool) returns (keep: bool)
    ensures keep == KeepAlive(version, headers.fields, checkProxy)
  {
    hide Vote;
    keep := version == Http11;
    if checkProxy {
      keep := ConsiderAll(Values(headers.fields, PROXY_CONNECTION), keep);
    }
    keep := ConsiderAll(Values(headers.fields, CONNECTION), keep);
  }

  method ConsiderAll(values: seq<string>, before: bool) returns (keep: bool)
    ensures keep == Decide(before, values)
  {
    keep := before;
    for i := 0 to |values|
      invariant keep == Decide(before, values[..i])
    {
      keep := Consider(values[i], keep);
      assert values[..i + 1][..i] == values[..i];
    }
    assert values[..|values|] == values;
  }

  /** The parts of one value that nominate a header. */
  method PartsOf(value: string) returns (extra: seq<string>)
    ensures Names(extra) == if Lists(value) then Words(value, |Split(value)|) else {}
  {
    hide Names, Trim, Lower;
    extra := [];
    NoNames();
    if Readable(value) && Lower(value) != CLOSE {
      for k := 0 to |Split(value)|
        invariant Names(extra) == Words(value, k)
      {
        var header := Trim(Split(value)[k]);
        if Lower(header) != KEEP_ALIVE {
          NamesSnoc(extra, header);
          extra := extra + [header];
        }
      }
    }
  }

  lemma NoNames()
    ensures Names([]) == {}
  {
  }

  lemma NamesConcat(a: seq<string>, b: seq<string>)
    ensures Names(a + b) == Names(a) + Names(b)
  {
    hide Lower;
    forall n | n in Names(a) ensures n in Names(a + b) {
      var k :| 0 <= k < |a| && Lower(a[k]) == n;
      assert (a + b)[k] == a[k];
    }
    forall n | n in Names(b) ensures n in Names(a + b) {
      var k :| 0 <= k < |b| && Lower(b[k]) == n;
      assert (a + b)[|a| + k] == b[k];
    }
  }

  method Nominees(values: seq<string>) returns (extra: seq<string>)
    ensures Names(extra) == Named(values)
  {
    hide Names, Words, Lists;
    extra := [];
    NoNames();
    for i := 0 to |values|
      invariant Names(extra) == Named(values[..i])
    {
      var parts := PartsOf(values[i]);
      NamesConcat(extra, parts);
      extra := extra + parts;
      assert values[..i + 1][..i] == values[..i];
    }
    assert values[..|values|] == values;
  }

  method ClearHopHeaders(headers: HeaderMap)
    modifies headers
    ensures headers.fields == Cleared(old(headers.fields))
  {
    hide Names, Named;
    var extra := Nominees(Values(headers.fields, CONNECTION));
    var more := Nominees(Values(headers.fields, PROXY_CONNECTION));
    NamesConcat(extra, more);
    headers.RemoveAll(extra + more);
    headers.RemoveAll(HOP_BY_HOP);
  }

  method SetConnKeepAlive(version: Version, headers: HeaderMap, keep: bool)
    modifies headers
    ensures headers.fields == WithKeepAlive(version, old(headers.fields), keep)
  {
    assert Lower("Connection") == CONNECTION;
    match version
    case Http10 =>
      if keep {
        headers.Insert("Connection", KEEP_ALIVE);
      }
    case Http11 =>
      if !keep {
        headers.Insert("Connection", CLOSE);
      }
  }

  /**
   A message on its way through the proxy: a request with `asked` true and `checkProxy`, a
   response with what its request decided and without. The next hop reads back what was decided
   here; it gets every header that is neither hop-by-hop nor nominated, unchanged, and no other
   but possibly a new `Connection`, and clearing again finds only that.
   */
  method Relay(version: Version, fields: Fields, asked: bool, checkProxy: bool) returns (keep: bool, out: Fields)
    ensures keep == (asked && KeepAlive(version, fields, checkProxy))
    ensures forall check :: KeepAlive(version, out, check) == keep
    ensures "connection" in out <==> keep != (version == Http11)
    ensures "connection" in out ==> out["connection"] == [if keep then "keep-alive" else "close"]
    ensures forall name :: name != "connection" ==>
              && (name in out <==>
                  && name in fields && name !in Nominated(fields)
                  && name !in {"keep-alive", "transfer-encoding", "te", "connection", "trailer", "upgrade",
                               "proxy-authorization", "proxy-authenticate", "proxy-connection"})
              && (name in out ==> out[name] == fields[name])
    ensures Cleared(out) == Cleared(fields)
  {
    hide KeepAlive, Named, Names;
    var headers := new HeaderMap(fields);
    var check := CheckKeepAlive(version, headers, checkProxy);
    keep := asked && check;
    ClearHopHeaders(headers);
    SetConnKeepAlive(version, headers, keep);
    out := headers.fields;
    HopNames();
    ConnectionIsCleared(fields);
    DecisionSurvives(version, fields, keep, true);
    DecisionSurvives(version, fields, keep, false);
    ClearedAgain(version, fields, keep);
  }

  lemma OwnWordsNominateNothing()
    ensures Named([KEEP_ALIVE]) == {} && Named([CLOSE]) == {} && Named([]) == {}
  {
    hide Word, Lower, Readable, Split;
    PlainWord(KEEP_ALIVE);
    PlainWord(CLOSE);
    assert Words(KEEP_ALIVE, 1) == Words(KEEP_ALIVE, 0) == {};
    assert [KEEP_ALIVE][..0] == [] && [CLOSE][..0] == [];
    assert !Lists(CLOSE);
  }

  lemma ClearedAgain(version: Version, fields: Fields, keep: bool)
    ensures Cleared(WithKeepAlive(version, Cleared(fields), keep)) == Cleared(fields)
  {
    hide Named, Names;
    ConnectionIsCleared(fields);
    OwnWordsNominateNothing();
    var left := Cleared(fields);
    var f := WithKeepAlive(version, left, keep);
    assert Nominated(f) == {};
    ClearedOnce(fields);
    ConnectionIsHop();
  }
}
