/** How the R82 demos fill a log message: a bounded string length, a byte copy
    and a terminating NUL, in a text field of fixed size. */
module LogMessage {

  type Char = c: nat | c < 256

  /** The characters of a C string: those before the first NUL, or all of them. */
  function Text(s: seq<Char>): (t: seq<Char>)
    ensures t <= s && 0 !in t
    ensures |t| < |s| ==> s[|t|] == 0
  {
    if s == [] || s[0] == 0 then [] else [s[0]] + Text(s[1..])
  }

  lemma {:induction false} TextIs(s: seq<Char>, n: nat)
    requires n <= |s| && 0 !in s[..n] && (n < |s| ==> s[n] == 0)
    ensures Text(s) == s[..n]
  {
    if n > 0 {
      assert s[0] == s[..n][0];
      assert s[1..][..n - 1] == s[..n][1..];
      TextIs(s[1..], n - 1);
    }
  }

  /** prvTinyStrnlen: zero for NULL; otherwise the string must be readable up
      to its terminator or up to max characters. */
  method TinyStrnlen(s: array?<Char>, max: nat) returns (n: nat)
    requires s != null ==> max <= s.Length || 0 in s[..]
    ensures s == null ==> n == 0
    ensures s != null ==> n <= max && n <= s.Length && 0 !in s[..n]
    ensures s != null && n < max ==> n < s.Length && s[n] == 0
  {
    n := 0;
    if s == null {
      return;
    }
    while n < max && s[n] != 0
      invariant n <= max && n <= s.Length && 0 !in s[..n]
      invariant n == s.Length ==> n == max
    {
      n := n + 1;
      assert n == s.Length ==> s[..n] == s[..];
    }
  }

  /** The characters a pointer gives access to; none for NULL. */
  ghost function Chars(s: array?<Char>): seq<Char>
    reads s
  {
    if s == null then [] else s[..]
  }

  method TinyMemCpy(dst: array<Char>, src: array?<Char>, count: nat)
    requires count <= dst.Length && count <= |Chars(src)| && dst != src
    modifies dst
    ensures dst[..] == Chars(src)[..count] + old(dst[count..])
  {
    var k: nat := 0;
    while k < count
      invariant k <= count
      invariant forall j {:trigger dst[j]} :: 0 <= j < dst.Length ==> dst[j] == if j < k then src[j] else old(dst[j])
    {
      dst[k] := src[k];
      k := k + 1;
    }
  }

  /** The text part of prvLogMsg: afterwards the field reads as the message,
      cut off where the field ends, and is always terminated; NULL reads as
      the empty message. */
  method FillText(field: array<Char>, message: array?<Char>)
    requires field.Length >= 1 && field != message
    requires message != null ==> field.Length - 1 <= message.Length || 0 in message[..]
    modifies field
    ensures var whole := Text(Chars(message));
            Text(field[..]) == if |whole| < field.Length then whole else whole[..field.Length - 1]
    ensures 0 in field[..]
  {
    var max := field.Length - 1;
    var n := TinyStrnlen(message, max);
    ghost var chars := Chars(message);
    TinyMemCpy(field, message, n);
    field[n] := 0;
    assert field[..n] == chars[..n];
    TextIs(field[..], n);
    assert field[n] in field[..];
    Prefix(chars, n);
    if n < max {
      TextIs(chars, n);
    }
  }

  /** A NUL-free prefix of a string is a prefix of its text. */
  lemma {:induction false} Prefix(s: seq<Char>, n: nat)
    requires n <= |s| && 0 !in s[..n]
    ensures n <= |Text(s)| && Text(s)[..n] == s[..n]
  {
    if n > 0 {
      assert s[0] == s[..n][0];
      assert s[1..][..n - 1] == s[..n][1..];
      Prefix(s[1..], n - 1);
    }
  }
}
