/**
 * The credential validator: the pattern PW_REGEX, `^[a-zA-Z0-9-#:&]{1,25}$`,
 * and what `MatchString` answers for it.
 *
 * The pattern is modelled in the structure Go's regexp parser gives it: a
 * bracketed character class (a list of ranges and literals), repeated between
 * MIN_PW_LEN and MAX_PW_LEN times, anchored at the start of the text and at the
 * end of the text (`$` without the multi-line flag). Go matches runes, the model
 * matches bytes; the two agree here because every member of the class is ASCII,
 * so a byte of a multi-byte or malformed UTF-8 sequence can never be matched.
 */
module Validator {
  import opened GoStrings

  /** One item of a bracketed character class. */
  datatype ClassItem = Range(lo: byte, hi: byte) | Literal(b: byte)

  /** MIN_PW_LEN and MAX_PW_LEN, spliced into the pattern as `{1,25}`. */
  const MinPwLen: nat := 1
  const MaxPwLen: nat := 25

  /**
   * The class `[a-zA-Z0-9-#:&]` as parsed. A `-` that follows a complete range
   * cannot begin another range, so the `-` after `0-9` is a literal; `#`, `:`
   * and `&` are literals too.
   */
  const PwClass: seq<ClassItem> := [
    Range('a' as int, 'z' as int),
    Range('A' as int, 'Z' as int),
    Range('0' as int, '9' as int),
    Literal('-' as int),
    Literal('#' as int),
    Literal(':' as int),
    Literal('&' as int)
  ]

  predicate ItemMatches(item: ClassItem, b: byte) {
    match item
    case Range(lo, hi) => lo <= b <= hi
    case Literal(c) => b == c
  }

  predicate InClass(items: seq<ClassItem>, b: byte) {
    exists i :: 0 <= i < |items| && ItemMatches(items[i], b)
  }

  /**
   * Whether the whole of `s` matches `^C{min,max}$` for the class `items`:
   * the empty text matches when no more repetitions are demanded; otherwise one
   * repetition (one byte of the class) is consumed, if any is still allowed.
   */
  predicate MatchesRepeat(items: seq<ClassItem>, min: nat, max: nat, s: GoString)
    decreases |s|
  {
    if s == [] then min == 0
    else
      max > 0 && InClass(items, s[0]) &&
      MatchesRepeat(items, if min == 0 then 0 else min - 1, max - 1, s[1..])
  }

  /** `r.MatchString(s)` for the compiled PW_REGEX. */
  predicate MatchesPwRegex(s: GoString) {
    MatchesRepeat(PwClass, MinPwLen, MaxPwLen, s)
  }

  /** The characters a user name or password may contain, written out. */
  predicate IsAllowedByte(b: byte) {
    ('a' as int <= b <= 'z' as int) ||
    ('A' as int <= b <= 'Z' as int) ||
    ('0' as int <= b <= '9' as int) ||
    b == '-' as int || b == '#' as int || b == ':' as int || b == '&' as int
  }

  /** The parsed class holds exactly letters, digits and `- # : &`. */
  lemma PwClassIsAllowedBytes(b: byte)
    ensures InClass(PwClass, b) <==> IsAllowedByte(b)
  {
    if IsAllowedByte(b) {
      if 'a' as int <= b <= 'z' as int { assert ItemMatches(PwClass[0], b); }
      else if 'A' as int <= b <= 'Z' as int { assert ItemMatches(PwClass[1], b); }
      else if '0' as int <= b <= '9' as int { assert ItemMatches(PwClass[2], b); }
      else if b == '-' as int { assert ItemMatches(PwClass[3], b); }
      else if b == '#' as int { assert ItemMatches(PwClass[4], b); }
      else if b == ':' as int { assert ItemMatches(PwClass[5], b); }
      else { assert ItemMatches(PwClass[6], b); }
    }
  }

  /** Bounded repetition of a class, stated without recursion. */
  lemma {:induction false} MatchesRepeatIff(items: seq<ClassItem>, min: nat, max: nat, s: GoString)
    ensures MatchesRepeat(items, min, max, s) <==>
            min <= |s| <= max && forall i :: 0 <= i < |s| ==> InClass(items, s[i])
    decreases |s|
  {
    if s != [] {
      var min' := if min == 0 then 0 else min - 1;
      if max > 0 {
        MatchesRepeatIff(items, min', max - 1, s[1..]);
        if forall i :: 0 <= i < |s[1..]| ==> InClass(items, s[1..][i]) {
          if InClass(items, s[0]) {
            forall i | 0 <= i < |s| ensures InClass(items, s[i]) {
              if i > 0 { assert s[i] == s[1..][i - 1]; }
            }
          }
        } else {
          var i :| 0 <= i < |s[1..]| && !InClass(items, s[1..][i]);
          assert s[1..][i] == s[i + 1];
        }
      }
    }
  }

  /**
   * The validator accepts exactly the texts of 1 to 25 bytes, every one a
   * letter, a digit or one of `- # : &`.
   */
  lemma MatchesPwRegexIff(s: GoString)
    ensures MatchesPwRegex(s) <==>
            1 <= |s| <= 25 && forall i :: 0 <= i < |s| ==> IsAllowedByte(s[i])
  {
    MatchesRepeatIff(PwClass, MinPwLen, MaxPwLen, s);
    forall i | 0 <= i < |s| ensures InClass(PwClass, s[i]) <==> IsAllowedByte(s[i]) {
      PwClassIsAllowedBytes(s[i]);
    }
  }

  /** The empty text is rejected. */
  lemma RejectsEmpty()
    ensures !MatchesPwRegex([])
  {
    MatchesPwRegexIff([]);
  }

  /** A text longer than 25 bytes is rejected, whatever its bytes. */
  lemma RejectsOverlong(s: GoString)
    requires |s| > MaxPwLen
    ensures !MatchesPwRegex(s)
  {
    MatchesPwRegexIff(s);
  }

  /** A 25-byte text of allowed bytes is accepted. */
  lemma AcceptsMaximalLength(s: GoString)
    requires |s| == MaxPwLen
    requires forall i :: 0 <= i < |s| ==> IsAllowedByte(s[i])
    ensures MatchesPwRegex(s)
  {
    MatchesPwRegexIff(s);
  }

  /**
   * `$` is the end of the text, not the end of a line: a trailing newline is
   * rejected, and so is any other byte outside the class, wherever it stands.
   */
  lemma RejectsForeignByte(s: GoString, k: nat)
    requires k < |s| && !IsAllowedByte(s[k])
    ensures !MatchesPwRegex(s)
  {
    MatchesPwRegexIff(s);
  }

  lemma RejectsTrailingNewline(s: GoString)
    ensures !MatchesPwRegex(s + ['\n' as int])
  {
    RejectsForeignByte(s + ['\n' as int], |s|);
  }
}
