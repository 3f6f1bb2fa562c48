/** The library's exception hierarchy and the built-in errors the modelled code can raise. */
module Exceptions {

  import opened Wrappers
  import opened PyValues

  /** `IFAPIException`, the base class; its one subclass `APIError` is its one variant, so every
      `APIError` is an `IFAPIException`. The fields are stored exactly as passed to the constructor. */
  datatype IFAPIException = APIError(status: Json, desc: Json)

  /** What can end a call: a library exception, a failed dictionary lookup (`KeyError`) or
      indexing into an empty list (`IndexError`). */
  datatype Error = Raised(exception: IFAPIException) | KeyError(key: string) | IndexError

  /** A call that either returns a value or raises. */
  datatype Result<+T> = Ok(value: T) | Err(error: Error)

  const MessagePrefix := "status "

  /** `APIError.__str__`. */
  function Message(e: IFAPIException): (s: string)
    ensures |s| >= |MessagePrefix| && s[..|MessagePrefix|] == MessagePrefix
  {
    MessagePrefix + PyStr(e.status) + ", " + PyStr(e.desc)
  }

  /** The position of the first `c` in `s`, or `|s|` when there is none. */
  function IndexOf(s: string, c: char): (k: nat)
    ensures k <= |s|
    ensures k < |s| ==> s[k] == c
    ensures forall i :: 0 <= i < k ==> s[i] != c
  {
    if s == [] then 0 else if s[0] == c then 0 else 1 + IndexOf(s[1..], c)
  }

  /** Reads an integer status and the description back out of an error message. */
  function ParseMessage(s: string): Option<(int, string)>
  {
    if |s| < |MessagePrefix| || s[..|MessagePrefix|] != MessagePrefix then None
    else
      var rest := s[|MessagePrefix|..];
      var k := IndexOf(rest, ',');
      if k + 1 < |rest| && rest[k + 1] == ' ' then
        match ParseInt(rest[..k])
        case Some(n) => Some((n, rest[k + 2..]))
        case None => None
      else None
  }

  lemma {:induction false} IndexOfBeyond(p: string, q: string, c: char)
    requires c !in p && |q| > 0 && q[0] == c
    ensures IndexOf(p + q, c) == |p|
    decreases |p|
  {
    if p != [] {
      assert (p + q)[1..] == p[1..] + q;
      IndexOfBeyond(p[1..], q, c);
    }
  }

  /** A message whose status text has no comma splits at the first ", ". */
  lemma {:induction false} ParseSplit(p: string, desc: string)
    requires ',' !in p
    ensures ParseMessage(MessagePrefix + p + ", " + desc) ==
              if ParseInt(p).Some? then Some((ParseInt(p).value, desc)) else None
  {
    var s := MessagePrefix + p + ", " + desc;
    var rest := s[|MessagePrefix|..];
    assert s[..|MessagePrefix|] == MessagePrefix;
    assert rest == p + (", " + desc);
    IndexOfBeyond(p, ", " + desc, ',');
    assert rest[..|p|] == p;
    assert rest[|p| + 2..] == desc;
  }

  /** The message of an error with an integer status determines the status and the description. */
  lemma {:induction false} MessageRoundTrip(status: int, desc: string)
    ensures ParseMessage(Message(APIError(JInt(status), JStr(desc)))) == Some((status, desc))
  {
    assert Message(APIError(JInt(status), JStr(desc))) == MessagePrefix + IntToDecimal(status) + ", " + desc;
    ParseSplit(IntToDecimal(status), desc);
    IntToDecimalRoundTrip(status);
  }
}
