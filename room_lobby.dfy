/** The code-room lobby: a random six-character room code for a new room, and the
    checks before navigating into a room. */
module RoomLobby {
  import Strings

  const Alphabet: string := "ABCDEF0123456789"
  const CodeLength: nat := 6

  /** What a lobby button leads to. */
  datatype Action = Alert(message: string) | Navigate(path: string)

  /** A value of `Math.random()`. */
  predicate IsRandom(r: real) {
    0.0 <= r < 1.0
  }

  /** `Math.floor(r * chars.length)`: an index into the alphabet. */
  function Pick(r: real): (k: int)
    requires IsRandom(r)
    ensures 0 <= k < |Alphabet|
    ensures k as real <= r * 16.0 < k as real + 1.0
  {
    (r * 16.0).Floor
  }

  /** The code a run of six random draws yields, one character per draw. */
  function CodeOf(randoms: seq<real>): (code: string)
    requires |randoms| == CodeLength
    requires forall i :: 0 <= i < |randoms| ==> IsRandom(randoms[i])
    ensures |code| == CodeLength
    ensures forall i :: 0 <= i < |code| ==> code[i] in Alphabet
  {
    seq(CodeLength, i requires 0 <= i < CodeLength => Alphabet[Pick(randoms[i])])
  }

  /** `generateRoomCode`, with the six values `Math.random` returns given as `randoms`. */
  method GenerateRoomCode(randoms: seq<real>) returns (result: string)
    requires |randoms| == CodeLength
    requires forall i :: 0 <= i < |randoms| ==> IsRandom(randoms[i])
    ensures result == CodeOf(randoms)
  {
    result := "";
    for i := 0 to CodeLength
      invariant |result| == i
      invariant forall j :: 0 <= j < i ==> result[j] == Alphabet[Pick(randoms[j])]
    {
      result := result + [Alphabet[Pick(randoms[i])]];
    }
  }

  /** Every six-character code over the alphabet is one the generator can produce. */
  lemma EveryCodeReachable(code: string)
    requires |code| == CodeLength
    requires forall i :: 0 <= i < |code| ==> code[i] in Alphabet
    ensures exists randoms: seq<real> ::
      |randoms| == CodeLength && (forall i :: 0 <= i < |randoms| ==> IsRandom(randoms[i]))
      && CodeOf(randoms) == code
  {
    var idx := seq(CodeLength, i requires 0 <= i < CodeLength => IndexIn(code[i]));
    var randoms := seq(CodeLength, i requires 0 <= i < CodeLength => idx[i] as real / 16.0);
    forall i | 0 <= i < CodeLength
      ensures IsRandom(randoms[i]) && Pick(randoms[i]) == idx[i]
    {
      assert randoms[i] * 16.0 == idx[i] as real;
    }
    assert CodeOf(randoms) == code;
  }

  /** The position of a character of the alphabet. */
  ghost function IndexIn(c: char): (k: nat)
    requires c in Alphabet
    ensures k < |Alphabet| && Alphabet[k] == c
  {
    var k :| 0 <= k < |Alphabet| && Alphabet[k] == c;
    k
  }

  /** `/room/<code>?name=<username>`. */
  function RoomPath(code: string, username: string): string {
    "/room/" + code + "?name=" + username
  }

  /** In a room path the first '?' follows the code, when the code has none. */
  lemma RoomPathQuery(code: string, username: string)
    requires '?' !in code
    ensures |RoomPath(code, username)| == 12 + |code| + |username|
    ensures RoomPath(code, username)[6 + |code|] == '?'
    ensures forall i :: 0 <= i < |code| ==> RoomPath(code, username)[6 + i] == code[i] != '?'
  {
  }

  /** The room page reads the code back from the path and the name from the query:
      for codes without '?', different rooms or names give different paths. */
  lemma RoomPathInjective(c1: string, u1: string, c2: string, u2: string)
    requires '?' !in c1 && '?' !in c2
    requires RoomPath(c1, u1) == RoomPath(c2, u2)
    ensures c1 == c2 && u1 == u2
  {
    var p := RoomPath(c1, u1);
    RoomPathQuery(c1, u1);
    RoomPathQuery(c2, u2);
    assert |c1| == |c2|;
    assert c1 == p[6..6 + |c1|] == c2;
    assert u1 == p[12 + |c1|..] == u2;
  }

  /** `handleCreate`: a name is required; then a fresh code names the room. */
  method HandleCreate(username: string, randoms: seq<real>) returns (action: Action)
    requires |randoms| == CodeLength
    requires forall i :: 0 <= i < |randoms| ==> IsRandom(randoms[i])
    ensures username == "" ==> action == Alert("Please enter your name!")
    ensures username != "" ==> action == Navigate(RoomPath(CodeOf(randoms), username))
  {
    if username == "" {
      return Alert("Please enter your name!");
    }
    var code := GenerateRoomCode(randoms);
    action := Navigate(RoomPath(code, username));
  }

  /** `handleJoin`: a name, then a code, are required; the code is upper-cased. */
  function HandleJoin(username: string, joinCode: string): (action: Action)
    ensures username == "" ==> action == Alert("Please enter your name!")
    ensures username != "" && joinCode == "" ==> action == Alert("Please enter a room code!")
    ensures username != "" && joinCode != "" ==>
      action.Navigate? && action.path == "/room/" + Strings.ToUpper(joinCode) + "?name=" + username
  {
    if username == "" then Alert("Please enter your name!")
    else if joinCode == "" then Alert("Please enter a room code!")
    else Navigate(RoomPath(Strings.ToUpper(joinCode), username))
  }

  /** A code the generator made is already upper case, so joining with it reaches the
      room that was created. */
  lemma JoinGeneratedCode(username: string, randoms: seq<real>)
    requires username != ""
    requires |randoms| == CodeLength
    requires forall i :: 0 <= i < |randoms| ==> IsRandom(randoms[i])
    ensures HandleJoin(username, CodeOf(randoms)) == Navigate(RoomPath(CodeOf(randoms), username))
  {
    var code := CodeOf(randoms);
    forall i | 0 <= i < |code|
      ensures Strings.UpperChar(code[i]) == code[i]
    {
      assert code[i] in Alphabet;
    }
    assert Strings.ToUpper(code) == code;
  }
}
