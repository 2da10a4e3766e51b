/** Shared vocabulary of the anagram game model: identifiers, an Option type,
    the integer conversions Python performs, and the character classes the
    bot relies on. */
module Common {

  /** Discord snowflakes: servers (guilds) and users are plain integers. */
  type ServerId = int
  type UserId = int

  /** The key of the per-user, per-server tables: `(user_id, server_id)`. */
  datatype UserKey = UserKey(user: UserId, server: ServerId)

  datatype Option<+T> = None | Some(value: T)

  /** Python's `int(x)` on a float: truncation toward zero. */
  function Trunc(x: real): (r: int)
    ensures 0.0 <= x ==> r as real <= x < r as real + 1.0
    ensures x < 0.0 ==> r as real - 1.0 < x <= r as real
  {
    if 0.0 <= x then x.Floor else -((-x).Floor)
  }

  lemma TruncMonotone(x: real, y: real)
    requires x <= y
    ensures Trunc(x) <= Trunc(y)
  {
  }

  /** `max(lo, min(hi, x))` */
  function Clamp(lo: int, hi: int, x: int): (r: int)
    requires lo <= hi
    ensures lo <= r <= hi
    ensures lo <= x <= hi ==> r == x
    ensures x < lo ==> r == lo
    ensures hi < x ==> r == hi
  {
    if x < lo then lo else if hi < x then hi else x
  }

  /** ASCII letters; `str.isalpha` is modelled on ASCII only. */
  predicate IsAlpha(c: char) {
    ('a' <= c <= 'z') || ('A' <= c <= 'Z')
  }

  predicate IsUpper(c: char) {
    'A' <= c <= 'Z'
  }

  /** Whitespace as Python's `str.split()` sees it among the ASCII
      characters: space, tab to carriage return, and the four separators
      0x1C to 0x1F. */
  predicate IsSpace(c: char) {
    c == ' ' || ('\t' <= c <= '\r') || ('\U{1C}' <= c <= '\U{1F}')
  }

  function LowerChar(c: char): (r: char)
    ensures IsUpper(c) ==> 'a' <= r <= 'z' && r as int - 'a' as int == c as int - 'A' as int
    ensures !IsUpper(c) ==> r == c
  {
    if IsUpper(c) then (c as int - 'A' as int + 'a' as int) as char else c
  }

  /** `str.lower()` on the ASCII letters. */
  function Lower(s: string): (r: string)
    ensures |r| == |s|
    ensures forall i :: 0 <= i < |s| ==> r[i] == LowerChar(s[i])
  {
    if s == [] then [] else [LowerChar(s[0])] + Lower(s[1..])
  }
}
