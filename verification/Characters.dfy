/** Character classes of the text formats. A text stands for a string of bytes. */
module Characters {
  type Text = string

  predicate IsDigit(c: char) { '0' <= c <= '9' }

  predicate IsSpace(c: char) { c == ' ' || c == '\t' || c == '\r' || c == '\n' }

  /** `ten` is the digit of ten: 'A' or 'a'. */
  function HexDigit(n: nat, ten: char): char
    requires n < 16 && ten < 'z'
  {
    if n < 10 then ('0' as int + n) as char else (ten as int + n - 10) as char
  }
}
