/**
 * The in-memory table of src/table.rs: rows with a `u32` id and two fixed 128-byte
 * text buffers, kept in insertion order.
 */
module Tables {
  import opened Tokens
  import opened Bytes

  /** Width of the `username` and `email` buffers. */
  const FIELD_SIZE: nat := 128

  /** A fixed-width text field: always exactly `FIELD_SIZE` bytes. */
  type Field = b: seq<byte> | |b| == FIELD_SIZE witness Zeros(FIELD_SIZE)

  datatype Row = Row(id: uint32, username: Field, email: Field)

  /** The field holding `text`: its bytes first, then zero padding up to `FIELD_SIZE`. */
  function Pad(text: seq<byte>): (r: Field)
    requires |text| <= FIELD_SIZE
    ensures r[..|text|] == text
    ensures forall i :: |text| <= i < FIELD_SIZE ==> r[i] == 0
  {
    text + Zeros(FIELD_SIZE - |text|)
  }

  /**
   * The bytes of `b` before its first zero byte: the reference inverse of `Pad` used to
   * state the round trip of a row's text fields.
   */
  function BeforeNul(b: seq<byte>): (r: seq<byte>)
    ensures |r| <= |b| && r == b[..|r|]
    ensures forall i :: 0 <= i < |r| ==> r[i] != 0
    ensures |r| < |b| ==> b[|r|] == 0
    decreases |b|
  {
    if |b| == 0 || b[0] == 0 then []
    else
      var tail := BeforeNul(b[1..]);
      var r := [b[0]] + tail;
      assert r[1..] == tail;
      r
  }

  /** What `Row::new` does: the row, or a panic on text that does not fit its buffer. */
  datatype Built = Built(row: Row) | Panicked(message: string)

  const USERNAME_PANIC := "Username is too long"
  const EMAIL_PANIC := "Email is too long"

  /**
   * `Row::new`: the id unchanged and each text copied into the front of a zeroed
   * buffer. Text longer than `FIELD_SIZE` panics, the username checked first.
   */
  function NewRow(id: uint32, username: seq<byte>, email: seq<byte>): (r: Built)
    ensures r.Panicked? <==> |username| > FIELD_SIZE || |email| > FIELD_SIZE
    ensures r.Panicked? ==> r.message == (if |username| > FIELD_SIZE then USERNAME_PANIC else EMAIL_PANIC)
    ensures r.Built? ==>
      && r.row.id == id
      && r.row.username[..|username|] == username
      && (forall i :: |username| <= i < FIELD_SIZE ==> r.row.username[i] == 0)
      && r.row.email[..|email|] == email
      && (forall i :: |email| <= i < FIELD_SIZE ==> r.row.email[i] == 0)
  {
    if |username| > FIELD_SIZE then Panicked(USERNAME_PANIC)
    else if |email| > FIELD_SIZE then Panicked(EMAIL_PANIC)
    else Built(Row(id, Pad(username), Pad(email)))
  }

  /** A text without a zero byte is recovered from its padded field. */
  lemma {:induction false} BeforeNulRecovers(text: seq<byte>, pad: seq<byte>)
    requires forall i :: 0 <= i < |text| ==> text[i] != 0
    requires |pad| == 0 || pad[0] == 0
    ensures BeforeNul(text + pad) == text
    decreases |text|
  {
    if |text| == 0 {
      assert text + pad == pad;
    } else {
      assert (text + pad)[0] == text[0];
      assert (text + pad)[1..] == text[1..] + pad;
      BeforeNulRecovers(text[1..], pad);
      assert [text[0]] + text[1..] == text;
    }
  }

  /** Text that fits builds a row, and its username and email read back when they contain no zero byte. */
  lemma {:induction false} NewRowRoundTrip(id: uint32, username: seq<byte>, email: seq<byte>)
    requires |username| <= FIELD_SIZE && |email| <= FIELD_SIZE
    requires forall i :: 0 <= i < |username| ==> username[i] != 0
    requires forall i :: 0 <= i < |email| ==> email[i] != 0
    ensures NewRow(id, username, email).Built?
    ensures BeforeNul(NewRow(id, username, email).row.username) == username
    ensures BeforeNul(NewRow(id, username, email).row.email) == email
  {
    BeforeNulRecovers(username, Zeros(FIELD_SIZE - |username|));
    BeforeNulRecovers(email, Zeros(FIELD_SIZE - |email|));
  }

  datatype Table = Table(rows: seq<Row>)

  /** `Table::new`: no rows. */
  function NewTable(): (r: Table)
    ensures |r.rows| == 0
  {
    Table([])
  }

  /** `Table::insert`: `row` goes last; the earlier rows stay as they were. */
  function Insert(t: Table, row: Row): (r: Table)
    ensures |r.rows| == |t.rows| + 1
    ensures r.rows[..|t.rows|] == t.rows
    ensures r.rows[|t.rows|] == row
  {
    Table(t.rows + [row])
  }

  /** Inserting `rows` one after another. */
  function InsertAll(t: Table, rows: seq<Row>): Table
    decreases |rows|
  {
    if |rows| == 0 then t else InsertAll(Insert(t, rows[0]), rows[1..])
  }

  /** A table holds exactly the rows inserted into it, in insertion order. */
  lemma {:induction false} InsertAllAppends(t: Table, rows: seq<Row>)
    ensures InsertAll(t, rows).rows == t.rows + rows
    decreases |rows|
  {
    if |rows| == 0 {
      assert t.rows + rows == t.rows;
    } else {
      InsertAllAppends(Insert(t, rows[0]), rows[1..]);
      assert t.rows + [rows[0]] + rows[1..] == t.rows + rows;
    }
  }

  /** A new table after a series of inserts holds those rows in order. */
  lemma {:induction false} FromEmpty(rows: seq<Row>)
    ensures InsertAll(NewTable(), rows).rows == rows
  {
    InsertAllAppends(NewTable(), rows);
    assert [] + rows == rows;
  }
}
