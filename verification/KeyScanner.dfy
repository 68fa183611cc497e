/** `rejectDuplicateKeys`: the one-pass scanner that guards the header and payload of a compact JWS. */
module KeyScanner {
  import opened JsonText
  import opened JsText
  import opened Prelude

  type Name = seq<int>

  /** The scanner's variables. */
  datatype State = State(inString: bool, escape: bool, depth: int, seen: map<int, set<Name>>)

  datatype Verdict =
    | Passed(depth: int)
    | DuplicateKey
    | MalformedKey   // `JSON.parse` of the key text throws

  datatype Progress = Continue(state: State) | Stop(verdict: Verdict)

  const START := State(false, false, 0, map[])

  /** How many characters precede the first quote of `s` that is not escaped; |s| when there is none. */
  function BodyLength(s: string, escape: bool): (n: nat)
    ensures n <= |s|
  {
    if s == [] then 0
    else if escape then 1 + BodyLength(s[1..], false)
    else if s[0] == '\\' then 1 + BodyLength(s[1..], true)
    else if s[0] == '"' then 0
    else 1 + BodyLength(s[1..], false)
  }

  predicate ColonNext(s: string) {
    s != [] && (if IsSpace(s[0]) then ColonNext(s[1..]) else s[0] == ':')
  }

  /** A quote met outside a string: when a colon follows the literal inside an object, its name is filed. */
  function OpenQuote(s: string, st: State): Progress
    requires s != []
  {
    var n := BodyLength(s[1..], false);
    if n + 1 < |s| && ColonNext(s[n + 2..]) && st.depth in st.seen then
      match Decode(s[1..n + 1])
      case None => Stop(MalformedKey)
      case Some(key) =>
        if key in st.seen[st.depth] then Stop(DuplicateKey)
        else Continue(st.(inString := true, seen := st.seen[st.depth := st.seen[st.depth] + {key}]))
    else Continue(st.(inString := true))
  }

  /** One turn of the scanner's loop on the text that is left. */
  function Step(s: string, st: State): Progress
    requires s != []
  {
    var c := s[0];
    if st.inString then
      if st.escape then Continue(st.(escape := false))
      else if c == '\\' then Continue(st.(escape := true))
      else if c == '"' then Continue(st.(inString := false))
      else Continue(st)
    else if c == '"' then OpenQuote(s, st)
    else if c == '{' then Continue(st.(depth := st.depth + 1, seen := st.seen[st.depth + 1 := {}]))
    else if c == '}' then Continue(st.(depth := st.depth - 1, seen := st.seen[st.depth := {}]))
    else Continue(st)
  }

  function Scan(s: string, st: State): Verdict {
    if s == [] then Passed(st.depth)
    else
      match Step(s, st)
      case Stop(verdict) => verdict
      case Continue(next) => Scan(s[1..], next)
  }

  /** The look-ahead loop: the index of the quote that closes a literal whose body starts at `start`. */
  method FindClosingQuote(json: string, start: nat) returns (j: nat)
    requires start <= |json|
    ensures j == start + BodyLength(json[start..], false)
    ensures j <= |json|
  {
    j := start;
    var e := false;
    while j < |json|
      invariant start <= j <= |json|
      invariant start + BodyLength(json[start..], false) == j + BodyLength(json[j..], e)
    {
      var d := json[j];
      assert json[j..][1..] == json[j + 1..];
      if e {
        e := false;
      } else if d == '\\' {
        e := true;
      } else if d == '"' {
        break;
      }
      j := j + 1;
    }
  }

  method ColonFollows(json: string, start: nat) returns (yes: bool)
    requires start <= |json|
    ensures yes == ColonNext(json[start..])
  {
    var k := start;
    while k < |json| && IsSpace(json[k])
      invariant start <= k <= |json|
      invariant ColonNext(json[start..]) == ColonNext(json[k..])
    {
      assert json[k..][1..] == json[k + 1..];
      k := k + 1;
    }
    yes := k < |json| && json[k] == ':';
  }

  /** The branch taken at a quote outside a string: look ahead and file the name when it is a key. */
  method AtQuote(json: string, i: nat, depth: int, seen: map<int, set<Name>>) returns (next: Progress)
    requires i < |json| && json[i] == '"'
    ensures next == OpenQuote(json[i..], State(false, false, depth, seen))
  {
    var s := json[i..];
    assert s[1..] == json[i + 1..];
    var j := FindClosingQuote(json, i + 1);
    var newSeen := seen;
    if j < |json| {
      assert s[j - i + 1..] == json[j + 1..];
      assert s[1..j - i] == json[i + 1..j];
      var colon := ColonFollows(json, j + 1);
      if colon && depth in seen {
        match Decode(json[i + 1..j]) {
          case None => return Stop(MalformedKey);
          case Some(key) =>
            if key in seen[depth] {
              return Stop(DuplicateKey);
            }
            newSeen := seen[depth := seen[depth] + {key}];
        }
      }
    }
    next := Continue(State(true, false, depth, newSeen));
  }

  /** The scanner's own loop over the text; `Scan` is its specification. */
  method RejectDuplicateKeys(json: string) returns (verdict: Verdict)
    ensures verdict == Scan(json, START)
  {
    var inString, escape, depth := false, false, 0;
    var seen: map<int, set<Name>> := map[];
    var i := 0;
    while i < |json|
      invariant 0 <= i <= |json|
      invariant Scan(json, START) == Scan(json[i..], State(inString, escape, depth, seen))
      invariant escape ==> inString
    {
      var c := json[i];
      assert json[i..][1..] == json[i + 1..];
      if inString {
        if escape {
          escape := false;
        } else if c == '\\' {
          escape := true;
        } else if c == '"' {
          inString := false;
        }
      } else if c == '"' {
        var next := AtQuote(json, i, depth, seen);
        if next.Stop? {
          return next.verdict;
        }
        inString, seen := true, next.state.seen;
      } else if c == '{' {
        depth := depth + 1;
        seen := seen[depth := {}];
      } else if c == '}' {
        seen := seen[depth := {}];
        depth := depth - 1;
      }
      i := i + 1;
    }
    verdict := Passed(depth);
  }
}
