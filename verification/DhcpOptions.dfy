/** The options of DHCP messages (src/core/dhcp.c): the writers dhcp_option and its kin, and
    the search dhcp_get_option_ptr, against section 2 of RFC 2132. */
module DhcpOptions {
  import opened Memory

  const DHCP_OPTION_OVERLOAD: byte := 52
  const DHCP_OPTION_END: byte := 255
  const DHCP_MIN_OPTIONS_LEN := 68
  const DHCP_SNAME_LEN := 64
  const DHCP_FILE_LEN := 128

  type OptionsLength = n: int | DHCP_MIN_OPTIONS_LEN <= n < 0x1_0000 witness DHCP_MIN_OPTIONS_LEN
  const DHCP_OPTIONS_LEN: OptionsLength

  // ---------------------------------------------------------------- the format

  type Payload = s: seq<byte> | |s| < 0x100 witness []

  datatype DhcpOption = DhcpOption(code: byte, data: Payload)

  function WireOption(o: DhcpOption): seq<byte> {
    [o.code, |o.data|] + o.data
  }

  function WireOptions(os: seq<DhcpOption>): seq<byte> {
    if os == [] then [] else WireOption(os[0]) + WireOptions(os[1..])
  }

  /** No option is an END, and an OVERLOAD has the one byte of data that belongs to it. */
  predicate Wellformed(os: seq<DhcpOption>) {
    forall k :: 0 <= k < |os| ==>
      os[k].code != DHCP_OPTION_END && (os[k].code == DHCP_OPTION_OVERLOAD ==> |os[k].data| == 1)
  }

  // ---------------------------------------------------------------- the writers

  /** The length of the options with their trailer: END, and padding up to the least length
      and to a multiple of four. */
  function TrailerEnd(n: nat): nat {
    if n + 1 <= DHCP_MIN_OPTIONS_LEN then DHCP_MIN_OPTIONS_LEN else (n + 4) / 4 * 4
  }

  function Zeros(n: nat): (s: seq<byte>)
    ensures |s| == n
  {
    seq(n, _ => 0)
  }

  class OptionWriter {
    const options: array<byte>
    var optionsOutLen: nat

    ghost predicate Valid()
      reads this
    {
      optionsOutLen <= options.Length == DHCP_OPTIONS_LEN
    }

    ghost function Written(): seq<byte>
      reads this, options
      requires Valid()
    {
      options[..optionsOutLen]
    }

    /** dhcp_create_request: no options yet; the field is filled with an incrementing pattern. */
    constructor ()
      ensures Valid() && Written() == [] && fresh(options)
    {
      options := new byte[DHCP_OPTIONS_LEN](i => if i >= 0 then U8(i) else 0);
      optionsOutLen := 0;
    }

    /** dhcp_option_byte */
    method OptionByte(value: byte)
      requires Valid() && optionsOutLen < DHCP_OPTIONS_LEN
      modifies this`optionsOutLen, options
      ensures Valid() && Written() == old(Written()) + [value]
    {
      options[optionsOutLen] := value;
      optionsOutLen := optionsOutLen + 1;
    }

    /** dhcp_option */
    method Option(code: byte, len: byte)
      requires Valid() && optionsOutLen + 2 + len <= DHCP_OPTIONS_LEN
      modifies this`optionsOutLen, options
      ensures Valid() && Written() == old(Written()) + [code, len]
    {
      OptionByte(code);
      OptionByte(len);
    }

    /** dhcp_option_short */
    method OptionShort(value: u16)
      requires Valid() && optionsOutLen + 2 <= DHCP_OPTIONS_LEN
      modifies this`optionsOutLen, options
      ensures Valid() && Written() == old(Written()) + Be16(value)
    {
      OptionByte(value / 0x100);
      OptionByte(value % 0x100);
    }

    /** dhcp_option_long */
    method OptionLong(value: u32)
      requires Valid() && optionsOutLen + 4 <= DHCP_OPTIONS_LEN
      modifies this`optionsOutLen, options
      ensures Valid() && Written() == old(Written()) + Be32(value)
    {
      OptionShort(value / 0x1_0000);
      OptionShort(value % 0x1_0000);
    }

    /** An option with its data, as the callers of the writers make it: the length that is
        announced is the number of bytes that follow. */
    method Append(o: DhcpOption)
      requires Valid() && optionsOutLen + 2 + |o.data| <= DHCP_OPTIONS_LEN
      modifies this`optionsOutLen, options
      ensures Valid() && Written() == old(Written()) + WireOption(o)
    {
      Option(o.code, |o.data|);
      var i := 0;
      while i < |o.data|
        invariant 0 <= i <= |o.data| && Valid() && optionsOutLen + |o.data| - i <= DHCP_OPTIONS_LEN
        invariant Written() == old(Written()) + ([o.code, |o.data|] + o.data[..i])
      {
        OptionByte(o.data[i]);
        assert o.data[..i + 1] == o.data[..i] + [o.data[i]];
        i := i + 1;
      }
      assert o.data[..i] == o.data;
    }

    /** dhcp_option_trailer: it stays in the field exactly if its end does. */
    method Trailer()
      requires Valid() && TrailerEnd(optionsOutLen) <= DHCP_OPTIONS_LEN
      modifies this`optionsOutLen, options
      ensures Valid() && optionsOutLen == TrailerEnd(old(optionsOutLen))
      ensures Written() == old(Written()) + ([DHCP_OPTION_END] + Zeros(optionsOutLen - old(optionsOutLen) - 1))
    {
      ghost var n := optionsOutLen;
      OptionByte(DHCP_OPTION_END);
      while optionsOutLen < DHCP_MIN_OPTIONS_LEN || optionsOutLen % 4 != 0
        invariant Valid() && n < optionsOutLen <= TrailerEnd(n)
        invariant Written() == old(Written()) + ([DHCP_OPTION_END] + Zeros(optionsOutLen - n - 1))
        decreases TrailerEnd(n) - optionsOutLen
      {
        OptionByte(0);
      }
    }
  }

  /** A field with these options and the trailer. */
  function Field(os: seq<DhcpOption>): seq<byte> {
    var n := |WireOptions(os)|;
    WireOptions(os) + ([DHCP_OPTION_END] + Zeros(TrailerEnd(n) - n - 1))
  }

  lemma {:induction false} OneMoreOption(os: seq<DhcpOption>, o: DhcpOption)
    ensures WireOptions(os + [o]) == WireOptions(os) + WireOption(o)
  {
    hide WireOption;
    if os == [] {
      assert os + [o] == [o] && [o][1..] == [];
      assert WireOptions([o]) == WireOption(o) + WireOptions([]);
    } else {
      assert (os + [o])[1..] == os[1..] + [o];
      OneMoreOption(os[1..], o);
      Regroup(WireOption(os[0]), WireOptions(os[1..]), WireOption(o));
    }
  }

  lemma {:induction false} PrefixFits(os: seq<DhcpOption>, k: nat)
    requires k <= |os|
    ensures |WireOptions(os[..k])| <= |WireOptions(os)|
    ensures k < |os| ==> |WireOptions(os[..k])| + |WireOption(os[k])| <= |WireOptions(os)|
    decreases |os| - k
  {
    if k < |os| {
      PrefixFits(os, k + 1);
      assert os[..k + 1] == os[..k] + [os[k]];
      OneMoreOption(os[..k], os[k]);
    } else {
      assert os[..k] == os;
    }
  }

  /** A request with any list of options that fits: the writers and then the trailer. */
  method WriteField(os: seq<DhcpOption>) returns (w: OptionWriter)
    requires TrailerEnd(|WireOptions(os)|) <= DHCP_OPTIONS_LEN
    ensures w.Valid() && fresh(w) && w.Written() == Field(os)
  {
    w := new OptionWriter();
    var k := 0;
    hide WireOption, WireOptions;
    EmptyList(os);
    while k < |os|
      invariant 0 <= k <= |os| && w.Valid() && fresh(w) && fresh(w.options) && w.Written() == WireOptions(os[..k])
    {
      PrefixFits(os, k);
      OptionSize(os[k]);
      w.Append(os[k]);
      OneMoreOption(os[..k], os[k]);
      assert os[..k + 1] == os[..k] + [os[k]];
      k := k + 1;
    }
    assert os[..k] == os;
    w.Trailer();
  }

  lemma EmptyList(os: seq<DhcpOption>)
    ensures WireOptions(os[..0]) == []
  {
  }

  lemma OptionSize(o: DhcpOption)
    ensures |WireOption(o)| == 2 + |o.data|
  {
  }

  // ---------------------------------------------------------------- the search

  datatype Place = Missing | Here(offset: nat)

  /** The loop of dhcp_get_option_ptr over the options field, as a function of memory. */
  function Find(b: seq<byte>, offset: nat, code: byte): Place
    decreases |b| - offset
  {
    if offset >= |b| || At(b, offset) == DHCP_OPTION_END then Missing
    else if At(b, offset) == DHCP_OPTION_OVERLOAD then Find(b, offset + 3, code)
    else if At(b, offset) == code then Here(offset)
    else Find(b, offset + 2 + At(b, offset + 1), code)
  }

  /** What that loop leaves in `overload`, if it runs to the end. */
  function Overload(b: seq<byte>, offset: nat, overload: byte): byte
    decreases |b| - offset
  {
    if offset >= |b| || At(b, offset) == DHCP_OPTION_END then overload
    else if At(b, offset) == DHCP_OPTION_OVERLOAD then Overload(b, offset + 3, At(b, offset + 2))
    else Overload(b, offset + 2 + At(b, offset + 1), overload)
  }

  /** The loop over an overloaded field, where OVERLOAD is an option like any other. */
  function FindIn(b: seq<byte>, offset: nat, code: byte): Place
    decreases |b| - offset
  {
    if offset >= |b| || At(b, offset) == DHCP_OPTION_END then Missing
    else if At(b, offset) == code then Here(offset)
    else FindIn(b, offset + 2 + At(b, offset + 1), code)
  }

  type SnameField = s: seq<byte> | |s| == DHCP_SNAME_LEN witness seq(DHCP_SNAME_LEN, _ => 0)
  type FileField = s: seq<byte> | |s| == DHCP_FILE_LEN witness seq(DHCP_FILE_LEN, _ => 0)

  /** The fields of an unfolded reply that may hold options. */
  datatype Fields = Fields(options: seq<byte>, sname: SnameField, file: FileField)

  /** The field that is searched next; `file` lies behind `sname`. */
  function Overloaded(m: Fields, overload: byte): seq<byte> {
    if overload == 0 then []
    else if overload == 1 then m.file
    else if overload == 2 then m.sname
    else m.sname + m.file
  }

  datatype Found = Nowhere | InOptions(offset: nat) | InOverloaded(offset: nat)

  function Search(m: Fields, code: byte): Found {
    match Find(m.options, 0, code)
    case Here(p) => InOptions(p)
    case Missing =>
      match FindIn(Overloaded(m, Overload(m.options, 0, 0)), 0, code)
      case Here(p) => InOverloaded(p)
      case Missing => Nowhere
  }

  /** dhcp_get_option_ptr. The offset is a u16_t, which the limit on the length of an IP packet
      keeps from wrapping around. */
  method GetOptionPtr(m: Fields, code: byte) returns (r: Found)
    requires |m.options| <= 0x1_0000 - 0x102
    ensures r == Search(m, code)
  {
    var overload: byte := 0;
    var offset: nat := 0;
    while offset < |m.options| && At(m.options, offset) != DHCP_OPTION_END
      invariant offset < 0x1_0000
      invariant Find(m.options, offset, code) == Find(m.options, 0, code)
      invariant Overload(m.options, offset, overload) == Overload(m.options, 0, 0)
      decreases |m.options| - offset
    {
      if At(m.options, offset) == DHCP_OPTION_OVERLOAD {
        offset := offset + 2;
        overload := At(m.options, offset);
        offset := offset + 1;
      } else if At(m.options, offset) == code {
        return InOptions(offset);
      } else {
        offset := offset + 1;
        offset := offset + 1 + At(m.options, offset);
      }
    }
    if overload == 0 {
      return Nowhere;
    }
    var field := if overload == 1 then m.file else if overload == 2 then m.sname else m.sname + m.file;
    offset := 0;
    while offset < |field| && At(field, offset) != DHCP_OPTION_END
      invariant FindIn(field, offset, code) == FindIn(field, 0, code)
      decreases |field| - offset
    {
      if At(field, offset) == code {
        return InOverloaded(offset);
      }
      offset := offset + 1;
      offset := offset + 1 + At(field, offset);
    }
    return Nowhere;
  }

  /** Where the first option with this code begins. */
  function FirstOption(os: seq<DhcpOption>, code: byte, offset: nat): Place {
    if os == [] then Missing
    else if os[0].code == code then Here(offset)
    else FirstOption(os[1..], code, offset + |WireOption(os[0])|)
  }

  lemma OptionHead(b: seq<byte>, p: nat, o: DhcpOption, rest: seq<byte>)
    requires StandsAt(b, p, WireOption(o) + rest)
    ensures p < |b| && At(b, p) == o.code && At(b, p + 1) == |o.data| && StandsAt(b, p + 2, o.data)
    ensures StandsAt(b, p + |WireOption(o)|, rest)
  {
    var head: seq<byte> := [o.code, |o.data|];
    StandsApart(b, p, WireOption(o), rest);
    StandsApart(b, p, head, o.data);
    assert b[p..p + 2][0] == b[p] && b[p..p + 2][1] == b[p + 1];
  }

  /** In a field that begins with options and an END, the search finds the first option of
      each code, and nothing else. */
  lemma {:induction false} FindsFirstOption(b: seq<byte>, p: nat, os: seq<DhcpOption>, code: byte)
    requires Wellformed(os) && code != DHCP_OPTION_OVERLOAD && StandsAt(b, p, WireOptions(os) + [DHCP_OPTION_END])
    ensures Find(b, p, code) == FirstOption(os, code, p)
    decreases |os|
  {
    if os == [] {
      EndStands(b, p);
    } else {
      NextOption(b, p, os);
      FindsFirstOption(b, p + |WireOption(os[0])|, os[1..], code);
    }
  }

  /** An overloaded field is searched in the same way. */
  lemma {:induction false} FindsInOverloaded(b: seq<byte>, p: nat, os: seq<DhcpOption>, code: byte)
    requires Wellformed(os) && StandsAt(b, p, WireOptions(os) + [DHCP_OPTION_END])
    ensures FindIn(b, p, code) == FirstOption(os, code, p)
    decreases |os|
  {
    if os == [] {
      EndStands(b, p);
    } else {
      NextOption(b, p, os);
      FindsInOverloaded(b, p + |WireOption(os[0])|, os[1..], code);
    }
  }

  /** The byte of the last OVERLOAD among the options, or v. */
  function LastOverload(os: seq<DhcpOption>, v: byte): byte
    requires Wellformed(os)
  {
    if os == [] then v
    else LastOverload(os[1..], if os[0].code == DHCP_OPTION_OVERLOAD then os[0].data[0] else v)
  }

  lemma {:induction false} OverloadIsLast(b: seq<byte>, p: nat, os: seq<DhcpOption>, v: byte)
    requires Wellformed(os) && StandsAt(b, p, WireOptions(os) + [DHCP_OPTION_END])
    ensures Overload(b, p, v) == LastOverload(os, v)
    decreases |os|
  {
    hide StandsAt, WireOptions, WireOption;
    if os == [] {
      EndStands(b, p);
    } else {
      NextOption(b, p, os);
      var overload := os[0].code == DHCP_OPTION_OVERLOAD;
      if overload {
        StandsFirst(b, p + 2, os[0].data);
      }
      OverloadIsLast(b, p + |WireOption(os[0])|, os[1..], if overload then os[0].data[0] else v);
    }
  }

  lemma EndStands(b: seq<byte>, p: nat)
    requires StandsAt(b, p, WireOptions([]) + [DHCP_OPTION_END])
    ensures p < |b| && At(b, p) == DHCP_OPTION_END
  {
    assert WireOptions([]) + [DHCP_OPTION_END] == [DHCP_OPTION_END];
    StandsFirst(b, p, [DHCP_OPTION_END]);
  }

  /** The head of the first option, and the place of the others. */
  lemma NextOption(b: seq<byte>, p: nat, os: seq<DhcpOption>)
    requires os != [] && Wellformed(os) && StandsAt(b, p, WireOptions(os) + [DHCP_OPTION_END])
    ensures p < |b| && At(b, p) == os[0].code && At(b, p + 1) == |os[0].data| && StandsAt(b, p + 2, os[0].data)
    ensures |WireOption(os[0])| == 2 + |os[0].data|
    ensures Wellformed(os[1..]) && StandsAt(b, p + |WireOption(os[0])|, WireOptions(os[1..]) + [DHCP_OPTION_END])
  {
    hide StandsAt;
    Regroup(WireOption(os[0]), WireOptions(os[1..]), [DHCP_OPTION_END]);
    OptionHead(b, p, os[0], WireOptions(os[1..]) + [DHCP_OPTION_END]);
  }

  /** What is found is that option. */
  lemma {:induction false} FoundIsOption(b: seq<byte>, p: nat, os: seq<DhcpOption>, code: byte) returns (k: nat)
    requires Wellformed(os) && StandsAt(b, p, WireOptions(os) + [DHCP_OPTION_END]) && FirstOption(os, code, p).Here?
    ensures var q := FirstOption(os, code, p).offset;
            k < |os| && os[k].code == code && (forall j :: 0 <= j < k ==> os[j].code != code) &&
            At(b, q) == code && At(b, q + 1) == |os[k].data| && StandsAt(b, q + 2, os[k].data)
    decreases |os|
  {
    NextOption(b, p, os);
    if os[0].code == code {
      k := 0;
    } else {
      k := FoundIsOption(b, p + |WireOption(os[0])|, os[1..], code);
      k := k + 1;
    }
  }

  predicate Occurs(os: seq<DhcpOption>, code: byte) {
    exists k :: 0 <= k < |os| && os[k].code == code
  }

  lemma {:induction false} FoundIfItOccurs(os: seq<DhcpOption>, code: byte, p: nat)
    ensures FirstOption(os, code, p).Here? <==> Occurs(os, code)
    decreases |os|
  {
    if os != [] {
      FoundIfItOccurs(os[1..], code, p + |WireOption(os[0])|);
      assert forall k :: 1 <= k < |os| ==> os[k] == os[1..][k - 1];
      assert forall k :: 0 <= k < |os| - 1 ==> os[1..][k] == os[k + 1];
    }
  }

  /** What the writers make of a list of options, the search reads back: the field has the
      required length, and for each code there is a pointer to the data of the first option
      of that code, or none. */
  lemma OptionsRoundTrip(os: seq<DhcpOption>, b: seq<byte>, code: byte)
    requires Wellformed(os) && b == Field(os) && code != DHCP_OPTION_OVERLOAD
    ensures |b| % 4 == 0 && |b| >= DHCP_MIN_OPTIONS_LEN
    ensures Find(b, 0, code).Here? <==> Occurs(os, code)
    ensures Find(b, 0, code).Here? ==>
            exists k :: 0 <= k < |os| && os[k].code == code && (forall j :: 0 <= j < k ==> os[j].code != code) &&
                        StandsAt(b, Find(b, 0, code).offset, WireOption(os[k]))
  {
    hide WireOptions, WireOption, Field, Find, FirstOption, Wellformed;
    FieldParts(os, b);
    FindsFirstOption(b, 0, os, code);
    FoundIfItOccurs(os, code, 0);
    if Find(b, 0, code).Here? {
      var k := FoundIsOption(b, 0, os, code);
      OptionStands(b, Find(b, 0, code).offset, os[k]);
    }
  }

  lemma FieldParts(os: seq<DhcpOption>, b: seq<byte>)
    requires b == Field(os)
    ensures |b| % 4 == 0 && |b| >= DHCP_MIN_OPTIONS_LEN && StandsAt(b, 0, WireOptions(os) + [DHCP_OPTION_END])
  {
    hide WireOptions;
    var n := |WireOptions(os)|;
    var pad := Zeros(TrailerEnd(n) - n - 1);
    Regroup(WireOptions(os), [DHCP_OPTION_END], pad);
    assert StandsAt(b, 0, b);
    hide StandsAt;
    StandsApart(b, 0, WireOptions(os) + [DHCP_OPTION_END], pad);
  }

  lemma OptionStands(b: seq<byte>, q: nat, o: DhcpOption)
    requires At(b, q) == o.code && At(b, q + 1) == |o.data| && StandsAt(b, q + 2, o.data)
    ensures StandsAt(b, q, WireOption(o))
  {
    var head: seq<byte> := [o.code, |o.data|];
    assert b[q..q + 2] == head;
    StandsApart(b, q, head, o.data);
  }

  // ---------------------------------------------------------------- overloaded fields

  /** A reply with the options `os` and, if one of them says so, the options `fs` in another
      field (1 is the file field, 2 sname, anything else both of them): the first option of a
      code in `os` is found, or else the first one in `fs`. */
  lemma SearchesBothFields(m: Fields, os: seq<DhcpOption>, fs: seq<DhcpOption>, code: byte)
    requires Wellformed(os) && Wellformed(fs) && code != DHCP_OPTION_OVERLOAD
    requires StandsAt(m.options, 0, WireOptions(os) + [DHCP_OPTION_END])
    requires var v, options := LastOverload(os, 0), WireOptions(fs) + [DHCP_OPTION_END];
             (v == 1 ==> StandsAt(m.file, 0, options)) && (v == 2 ==> StandsAt(m.sname, 0, options)) &&
             (v >= 3 ==> StandsAt(m.sname + m.file, 0, options))
    ensures Search(m, code) ==
            match FirstOption(os, code, 0) {
              case Here(p) => InOptions(p)
              case Missing =>
                if LastOverload(os, 0) == 0 then Nowhere
                else match FirstOption(fs, code, 0)
                     case Here(p) => InOverloaded(p)
                     case Missing => Nowhere
            }
  {
    hide StandsAt, WireOptions, Find, Overload, LastOverload, FirstOption, Wellformed;
    FindsFirstOption(m.options, 0, os, code);
    OverloadIsLast(m.options, 0, os, 0);
    if LastOverload(os, 0) != 0 {
      FindsInOverloaded(Overloaded(m, LastOverload(os, 0)), 0, fs, code);
    }
  }

  /** If both fields are overloaded, the END of the options in `sname` ends the search, where
      section 4.1 of RFC 2131 puts options into both: those in `file` are found exactly if
      their codes occur elsewhere, too. */
  lemma FileFieldIsLost(m: Fields, os: seq<DhcpOption>, sname: seq<DhcpOption>, file: seq<DhcpOption>)
    requires Wellformed(os) && Wellformed(sname) && LastOverload(os, 0) >= 3
    requires StandsAt(m.options, 0, WireOptions(os) + [DHCP_OPTION_END])
    requires StandsAt(m.sname, 0, WireOptions(sname) + [DHCP_OPTION_END])
    ensures (forall code: byte :: code != DHCP_OPTION_OVERLOAD && Occurs(file, code) ==>
               Search(m, code) != Nowhere) <==>
            (forall code: byte :: code != DHCP_OPTION_OVERLOAD && Occurs(file, code) ==>
               Occurs(os, code) || Occurs(sname, code))
  {
    hide WireOptions, Search, FirstOption, Wellformed;
    var end := WireOptions(sname) + [DHCP_OPTION_END];
    assert (m.sname + m.file)[..|end|] == m.sname[..|end|];
    assert StandsAt(m.sname + m.file, 0, end);
    forall code: byte | code != DHCP_OPTION_OVERLOAD
      ensures Search(m, code) != Nowhere <==> Occurs(os, code) || Occurs(sname, code)
    {
      SearchesBothFields(m, os, sname, code);
      FoundIfItOccurs(os, code, 0);
      FoundIfItOccurs(sname, code, 0);
    }
  }

  // ---------------------------------------------------------------- PAD

  /** An option behind a run of PADs, which are single zero bytes. */
  datatype Padded = Padded(pads: nat, option: DhcpOption)

  function WirePadded(ps: seq<Padded>): seq<byte> {
    if ps == [] then [] else Zeros(ps[0].pads) + (WireOption(ps[0].option) + WirePadded(ps[1..]))
  }

  /** Where option k begins, from the first PAD on. */
  function Position(ps: seq<Padded>, k: nat): nat
    requires k < |ps|
  {
    ps[0].pads + if k == 0 then 0 else |WireOption(ps[0].option)| + Position(ps[1..], k - 1)
  }

  predicate DistinctCodes(ps: seq<Padded>) {
    (forall k :: 0 <= k < |ps| ==> ps[k].option.code !in {0, DHCP_OPTION_END, DHCP_OPTION_OVERLOAD}) &&
    (forall j, k :: 0 <= j < k < |ps| ==> ps[j].option.code != ps[k].option.code)
  }

  predicate FindsAll(b: seq<byte>, p: nat, ps: seq<Padded>) {
    forall k :: 0 <= k < |ps| ==> Find(b, p, ps[k].option.code) == Here(p + Position(ps, k))
  }

  predicate EvenRuns(ps: seq<Padded>) {
    forall k :: 0 <= k < |ps| ==> ps[k].pads % 2 == 0
  }

  /** The search takes a PAD for an option with a length. It skips two of them as an option
      without data, and so finds all options exactly if none stands behind an odd run. */
  lemma {:induction false} FindsAllExactlyIf(b: seq<byte>, p: nat, ps: seq<Padded>)
    requires DistinctCodes(ps) && StandsAt(b, p, WirePadded(ps))
    ensures FindsAll(b, p, ps) <==> EvenRuns(ps)
    decreases |ps|
  {
    hide StandsAt, WirePadded, WireOption, Zeros, Find;
    if ps != [] {
      PaddedApart(b, p, ps);
      if ps[0].pads % 2 == 1 {
        FirstIsLost(b, p, ps);
      } else {
        FindsAllExactlyIf(b, p + ps[0].pads + |WireOption(ps[0].option)|, ps[1..]);
        FirstFound(b, p, ps);
      }
    }
  }

  lemma FirstIsLost(b: seq<byte>, p: nat, ps: seq<Padded>)
    requires DistinctCodes(ps) && ps != [] && StandsAt(b, p, WirePadded(ps)) && ps[0].pads % 2 == 1
    ensures Find(b, p, ps[0].option.code) != Here(p + Position(ps, 0))
  {
    hide StandsAt, WirePadded, WireOption, Zeros, Find;
    var q, code := p + ps[0].pads, ps[0].option.code;
    PaddedApart(b, p, ps);
    PadsSkipped(b, p, ps[0].pads, code);
    FindAhead(b, q + 1 + code, code);
  }

  lemma PaddedApart(b: seq<byte>, p: nat, ps: seq<Padded>)
    requires ps != [] && StandsAt(b, p, WirePadded(ps))
    ensures var q := p + ps[0].pads;
            StandsAt(b, p, Zeros(ps[0].pads)) && q < |b| && At(b, q) == ps[0].option.code &&
            At(b, q + 1) == |ps[0].option.data| && StandsAt(b, q + |WireOption(ps[0].option)|, WirePadded(ps[1..]))
  {
    hide StandsAt, WireOption;
    StandsApart(b, p, Zeros(ps[0].pads), WireOption(ps[0].option) + WirePadded(ps[1..]));
    OptionHead(b, p + ps[0].pads, ps[0].option, WirePadded(ps[1..]));
  }

  /** The PADs go in pairs; the last one of an odd run takes the code behind it for a length. */
  lemma {:induction false} PadsSkipped(b: seq<byte>, p: nat, n: nat, code: byte)
    requires StandsAt(b, p, Zeros(n)) && code != 0
    ensures Find(b, p, code) == if n % 2 == 0 then Find(b, p + n, code) else Find(b, p + n + 1 + At(b, p + n), code)
    decreases n
  {
    if n > 0 {
      assert b[p] == b[p..p + n][0] == 0;
      if n > 1 {
        assert b[p + 1] == b[p..p + n][1] == 0;
        assert b[p + 2..p + n] == Zeros(n)[2..] == Zeros(n - 2);
        PadsSkipped(b, p + 2, n - 2, code);
      }
    }
  }

  lemma {:induction false} FindAhead(b: seq<byte>, p: nat, code: byte)
    ensures Find(b, p, code).Here? ==> Find(b, p, code).offset >= p
    decreases |b| - p
  {
    if p < |b| {
      FindAhead(b, p + 3, code);
      FindAhead(b, p + 2 + At(b, p + 1), code);
    }
  }

  /** Behind an even run the first option is found, and the others as if it was not there. */
  lemma FirstFound(b: seq<byte>, p: nat, ps: seq<Padded>)
    requires DistinctCodes(ps) && ps != [] && StandsAt(b, p, WirePadded(ps)) && ps[0].pads % 2 == 0
    ensures FindsAll(b, p, ps) <==> FindsAll(b, p + ps[0].pads + |WireOption(ps[0].option)|, ps[1..])
  {
    hide StandsAt, WirePadded, Zeros, WireOption;
    var rest, q := ps[1..], p + ps[0].pads;
    var q' := q + |WireOption(ps[0].option)|;
    PaddedApart(b, p, ps);
    OptionSize(ps[0].option);
    forall k | 0 <= k < |ps|
      ensures Find(b, p, ps[k].option.code) == if k == 0 then Here(q) else Find(b, q', ps[k].option.code)
    {
      PadsSkipped(b, p, ps[0].pads, ps[k].option.code);
    }
    assert forall k :: 1 <= k < |ps| ==> ps[k] == rest[k - 1] && p + Position(ps, k) == q' + Position(rest, k - 1);
    assert forall k :: 0 <= k < |rest| ==> rest[k] == ps[k + 1] && p + Position(ps, k + 1) == q' + Position(rest, k);
  }

  // ---------------------------------------------------------------- numbers

  /** dhcp_get_option_long reads back what dhcp_option_long has written, and the other way round. */
  lemma LongRoundTrip(b: seq<byte>, p: nat, value: u32)
    ensures StandsAt(b, p, Be32(value)) ==> Read32(b, p) == value
    ensures p + 4 <= |b| ==> Be32(Read32(b, p)) == b[p..p + 4]
  {
    if StandsAt(b, p, Be32(value)) {
      ReadsBe32(b, p, value);
    }
    if p + 4 <= |b| {
      var hi, lo := Read16(b, p), Read16(b, p + 2);
      assert Read32(b, p) / 0x1_0000 == hi && Read32(b, p) % 0x1_0000 == lo;
      assert Be16(hi) == b[p..p + 2] && Be16(lo) == b[p + 2..p + 4];
    }
  }
}
