/** The upload of `form_data/mod.rs`'s own example: the browser's
    boundary, a `Content-Disposition` and a `Content-Type` header, and the
    seventeen lines of the uploaded file as the data. */
module MultipartExamples {
  import opened Common
  import opened Text
  import opened FormDataFsm
  import opened Multipart
  import opened MultipartProofs
  import opened MultipartHeaders

  /** `------WebKitFormBoundarype6X79pAiSSGJJKV`, in four pieces. */
  const BOUNDARY: bytes := DASHES + WEB_KIT_FORM + BOUNDARY_PE + TOKEN
  const DASHES: bytes := [45, 45, 45, 45, 45, 45]  // ------
  const WEB_KIT_FORM: bytes := [87, 101, 98, 75, 105, 116, 70, 111, 114, 109]  // WebKitForm
  const BOUNDARY_PE: bytes := [66, 111, 117, 110, 100, 97, 114, 121, 112, 101]  // Boundarype
  const TOKEN: bytes := [54, 88, 55, 57, 112, 65, 105, 83, 83, 71, 74, 74, 75, 86]  // 6X79pAiSSGJJKV
  const FORM_DATA: bytes := [102, 111, 114, 109, 45, 100, 97, 116, 97]  // form-data
  const FILE: bytes := [102, 105, 108, 101]  // file
  const ARIA2_CONF: bytes := [97, 114, 105, 97, 50, 46, 99, 111, 110, 102]  // aria2.conf
  const OCTET_STREAM: bytes :=
    [97, 112, 112, 108, 105, 99, 97, 116, 105, 111, 110, 47,
     111, 99, 116, 101, 116, 45, 115, 116, 114, 101, 97, 109]  // application/octet-stream
  /** The uploaded file, `aria2.conf`: seventeen lines, each ending in LF,
      the last in CR LF. */
  const DATA: bytes :=
    RPC_USER + RPC_PASSWD + RPC_SECRET + ENABLE_RPC
    + RPC_ALLOW_ORIGIN_ALL + RPC_LISTEN_ALL + MAX_CONCURRENT_DOWNLOADS + CONTINUE
    + MAX_CONNECTION_PER_SERVER + MIN_SPLIT_SIZE + SPLIT + MAX_OVERALL_DOWNLOAD_LIMIT
    + MAX_DOWNLOAD_LIMIT + MAX_OVERALL_UPLOAD_LIMIT + MAX_UPLOAD_LIMIT + DIR
    + FILE_ALLOCATION

  const RPC_USER: bytes :=
    [35, 32, 114, 112, 99, 45, 117, 115, 101, 114, 61, 99, 104, 101, 110, 107, 115, 10]  // # rpc-user=chenks\n
  const RPC_PASSWD: bytes :=
    [35, 32, 114, 112, 99, 45, 112, 97, 115, 115, 119, 100, 61, 55, 52, 57, 57, 50, 51,
     55, 49, 48, 10]  // # rpc-passwd=749923710\n
  const RPC_SECRET: bytes :=
    [114, 112, 99, 45, 115, 101, 99, 114, 101, 116, 61, 116, 111, 107, 101, 110, 10]  // rpc-secret=token\n
  const ENABLE_RPC: bytes :=
    [101, 110, 97, 98, 108, 101, 45, 114, 112, 99, 61, 116, 114, 117, 101, 10]  // enable-rpc=true\n
  const RPC_ALLOW_ORIGIN_ALL: bytes :=
    [114, 112, 99, 45, 97, 108, 108, 111, 119, 45, 111, 114, 105, 103, 105, 110, 45, 97,
     108, 108, 61, 116, 114, 117, 101, 10]  // rpc-allow-origin-all=true\n
  const RPC_LISTEN_ALL: bytes :=
    [114, 112, 99, 45, 108, 105, 115, 116, 101, 110, 45, 97, 108, 108, 61, 116, 114,
     117, 101, 10]  // rpc-listen-all=true\n
  const MAX_CONCURRENT_DOWNLOADS: bytes :=
    [109, 97, 120, 45, 99, 111, 110, 99, 117, 114, 114, 101, 110, 116, 45, 100, 111,
     119, 110, 108, 111, 97, 100, 115, 61, 53, 10]  // max-concurrent-downloads=5\n
  const CONTINUE: bytes :=
    [99, 111, 110, 116, 105, 110, 117, 101, 61, 116, 114, 117, 101, 10]  // continue=true\n
  const MAX_CONNECTION_PER_SERVER: bytes :=
    [109, 97, 120, 45, 99, 111, 110, 110, 101, 99, 116, 105, 111, 110, 45, 112, 101,
     114, 45, 115, 101, 114, 118, 101, 114, 61, 53, 10]  // max-connection-per-server=5\n
  const MIN_SPLIT_SIZE: bytes :=
    [109, 105, 110, 45, 115, 112, 108, 105, 116, 45, 115, 105, 122, 101, 61, 49, 48, 77,
     10]  // min-split-size=10M\n
  const SPLIT: bytes := [115, 112, 108, 105, 116, 61, 49, 48, 10]  // split=10\n
  const MAX_OVERALL_DOWNLOAD_LIMIT: bytes :=
    [109, 97, 120, 45, 111, 118, 101, 114, 97, 108, 108, 45, 100, 111, 119, 110, 108,
     111, 97, 100, 45, 108, 105, 109, 105, 116, 61, 48, 10]  // max-overall-download-limit=0\n
  const MAX_DOWNLOAD_LIMIT: bytes :=
    [109, 97, 120, 45, 100, 111, 119, 110, 108, 111, 97, 100, 45, 108, 105, 109, 105,
     116, 61, 48, 10]  // max-download-limit=0\n
  const MAX_OVERALL_UPLOAD_LIMIT: bytes :=
    [109, 97, 120, 45, 111, 118, 101, 114, 97, 108, 108, 45, 117, 112, 108, 111, 97,
     100, 45, 108, 105, 109, 105, 116, 61, 48, 10]  // max-overall-upload-limit=0\n
  const MAX_UPLOAD_LIMIT: bytes :=
    [109, 97, 120, 45, 117, 112, 108, 111, 97, 100, 45, 108, 105, 109, 105, 116, 61, 48,
     10]  // max-upload-limit=0\n
  const DIR: bytes :=
    [100, 105, 114, 61, 47, 85, 115, 101, 114, 115, 47, 98, 114, 117, 99, 101, 122, 104,
     111, 117, 47, 109, 111, 118, 105, 101, 10]  // dir=/Users/brucezhou/movie\n
  const FILE_ALLOCATION: bytes :=
    [102, 105, 108, 101, 45, 97, 108, 108, 111, 99, 97, 116, 105, 111, 110, 61, 112,
     114, 101, 97, 108, 108, 111, 99, 13, 10]  // file-allocation=prealloc\r\n

  /** `Content-Disposition: form-data; name="file"; filename="aria2.conf"`
      and `Content-Type: application/octet-stream`. */
  const HEADERS: seq<PartHeader> :=
    [PartHeader(CONTENT_DISPOSITION, DispositionValue(FORM_DATA, FILE, ARIA2_CONF)),
     PartHeader(CONTENT_TYPE, OCTET_STREAM)]

  /** The part the upload describes. */
  const PART: FormDataPart := FormDataPart(Some(FILE), Some(ARIA2_CONF), Some(OCTET_STREAM), [])

  /** Two headers applied one after the other. */
  lemma ApplyTwo(p: FormDataPart, h1: PartHeader, h2: PartHeader, p1: FormDataPart, p2: FormDataPart)
    requires ApplyHeader(p, h1.field, h1.value) == Ok(p1)
    requires ApplyHeader(p1, h2.field, h2.value) == Ok(p2)
    ensures ApplyHeaders(p, [h1, h2]) == Ok(p2)
  {
    assert [h1, h2][1..] == [h2];
    assert [h2][1..] == [];
    assert ApplyHeaders(p1, [h2]) == ApplyHeaders(p2, []);
    assert ApplyHeaders(p, [h1, h2]) == ApplyHeaders(p1, [h2]);
  }

  lemma TypeHeader(p: FormDataPart)
    ensures ApplyHeader(p, CONTENT_TYPE, OCTET_STREAM) == Ok(p.(contentType := Some(OCTET_STREAM)))
  {
    assert AllAscii(CONTENT_TYPE) && AllAscii(OCTET_STREAM);
    AsciiIsUtf8(CONTENT_TYPE);
    AsciiIsUtf8(OCTET_STREAM);
    assert |CONTENT_TYPE| != |CONTENT_DISPOSITION|;
  }

  /** The two headers name the part `file`, its file `aria2.conf`, and
      give its content type. */
  lemma ExampleHeaders()
    ensures ApplyHeaders(NewPart(), HEADERS) == Ok(PART)
  {
    assert AllAscii(FORM_DATA) && Lacks(FORM_DATA, SEMICOLON) && Lacks(FORM_DATA, EQUALS);
    assert AllAscii(FILE) && Lacks(FILE, SEMICOLON);
    assert AllAscii(ARIA2_CONF) && Lacks(ARIA2_CONF, SEMICOLON);
    DispositionNamesPart(NewPart(), FORM_DATA, FILE, ARIA2_CONF);
    var named := NewPart().(name := Some(FILE), filename := Some(ARIA2_CONF));
    TypeHeader(named);
    ApplyTwo(NewPart(), HEADERS[0], HEADERS[1], named, PART);
  }

  /** A visible byte: neither a control byte, nor a blank, nor above
      ASCII. */
  predicate Visible(s: bytes) { forall i | 0 <= i < |s| :: 32 < s[i] < 127 }

  lemma VisibleConcat(a: bytes, b: bytes)
    requires Visible(a) && Visible(b)
    ensures Visible(a + b)
  {
  }

  lemma ExampleBoundary()
    ensures IsBoundary(BOUNDARY)
    ensures BOUNDARY[0] == DASH && BOUNDARY[1] == DASH
  {
    assert Visible(DASHES) && Visible(WEB_KIT_FORM) && Visible(BOUNDARY_PE) && Visible(TOKEN);
    VisibleConcat(DASHES, WEB_KIT_FORM);
    VisibleConcat(DASHES + WEB_KIT_FORM, BOUNDARY_PE);
    VisibleConcat(DASHES + WEB_KIT_FORM + BOUNDARY_PE, TOKEN);
    assert BOUNDARY[..6] == DASHES;
  }

  lemma NoLineBreakConcat(a: bytes, b: bytes)
    requires NoLineBreak(a) && NoLineBreak(b)
    ensures NoLineBreak(a + b)
  {
  }

  lemma DispositionLine()
    ensures IsValue(DispositionValue(FORM_DATA, FILE, ARIA2_CONF))
  {
    var a := Parameter(NAME, Quoted(FILE));
    var b := Parameter(FILENAME, Quoted(ARIA2_CONF));
    JoinThree(FORM_DATA, a, b, ITEM_SEPARATOR);
    assert NoLineBreak(FORM_DATA) && NoLineBreak(ITEM_SEPARATOR);
    assert NoLineBreak(a) && NoLineBreak(b);
    NoLineBreakConcat(a + ITEM_SEPARATOR, b);
    NoLineBreakConcat(FORM_DATA + ITEM_SEPARATOR, a + ITEM_SEPARATOR + b);
    assert (FORM_DATA + ITEM_SEPARATOR + (a + ITEM_SEPARATOR + b))[0] == FORM_DATA[0];
  }

  lemma ExampleWellFormed()
    ensures IsBoundary(BOUNDARY)
    ensures WellFormedHeaders(HEADERS)
    ensures |DATA| > 0 && DATA[0] != SP
    ensures Unambiguous(BOUNDARY, DATA[1..])
  {
    ExampleBoundary();
    ExampleHeaderLines();
    ExampleData();
  }

  lemma ExampleHeaderLines()
    ensures WellFormedHeaders(HEADERS)
  {
    DispositionLine();
    assert IsField(CONTENT_DISPOSITION);
    assert IsField(CONTENT_TYPE) && IsValue(OCTET_STREAM);
  }

  /** Every dash is followed at once by a byte other than a dash. */
  predicate SingleDashes(d: bytes) {
    forall i | 0 <= i < |d| && d[i] == DASH :: i + 1 < |d| && d[i + 1] != DASH
  }

  lemma SingleDashesConcat(a: bytes, c: bytes)
    requires SingleDashes(a) && SingleDashes(c)
    ensures SingleDashes(a + c)
  {
    forall i | 0 <= i < |a + c| && (a + c)[i] == DASH
      ensures i + 1 < |a + c| && (a + c)[i + 1] != DASH
    {
      if i < |a| {
        assert a[i] == DASH;
      } else {
        assert c[i - |a|] == DASH;
      }
    }
  }

  lemma SingleDashesTail(d: bytes)
    requires |d| > 0 && SingleDashes(d)
    ensures SingleDashes(d[1..])
  {
    forall i | 0 <= i < |d[1..]| && d[1..][i] == DASH
      ensures i + 1 < |d[1..]| && d[1..][i + 1] != DASH
    {
      assert d[i + 1] == DASH;
    }
  }

  lemma RpcLines()
    ensures SingleDashes(RPC_USER) && SingleDashes(RPC_PASSWD) && SingleDashes(RPC_SECRET)
  {
  }

  lemma RpcSwitchLines()
    ensures SingleDashes(ENABLE_RPC) && SingleDashes(RPC_ALLOW_ORIGIN_ALL) && SingleDashes(RPC_LISTEN_ALL)
  {
  }

  lemma DownloadLines()
    ensures SingleDashes(MAX_CONCURRENT_DOWNLOADS) && SingleDashes(CONTINUE)
    ensures SingleDashes(MAX_CONNECTION_PER_SERVER)
  {
  }

  lemma SplitLines()
    ensures SingleDashes(MIN_SPLIT_SIZE) && SingleDashes(SPLIT) && SingleDashes(DIR)
  {
  }

  lemma DownloadLimitLines()
    ensures SingleDashes(MAX_OVERALL_DOWNLOAD_LIMIT) && SingleDashes(MAX_DOWNLOAD_LIMIT)
  {
  }

  lemma UploadLimitLines()
    ensures SingleDashes(MAX_OVERALL_UPLOAD_LIMIT) && SingleDashes(MAX_UPLOAD_LIMIT)
  {
  }

  lemma AllocationLine()
    ensures SingleDashes(FILE_ALLOCATION)
  {
  }

  /** No line of the file holds two dashes in a row, so neither does the
      file. */
  lemma SingleDashesData()
    ensures SingleDashes(DATA)
  {
    RpcLines();
    RpcSwitchLines();
    DownloadLines();
    SplitLines();
    DownloadLimitLines();
    UploadLimitLines();
    AllocationLine();
    var d := RPC_USER;
    SingleDashesConcat(d, RPC_PASSWD); d := d + RPC_PASSWD;
    SingleDashesConcat(d, RPC_SECRET); d := d + RPC_SECRET;
    SingleDashesConcat(d, ENABLE_RPC); d := d + ENABLE_RPC;
    SingleDashesConcat(d, RPC_ALLOW_ORIGIN_ALL); d := d + RPC_ALLOW_ORIGIN_ALL;
    SingleDashesConcat(d, RPC_LISTEN_ALL); d := d + RPC_LISTEN_ALL;
    SingleDashesConcat(d, MAX_CONCURRENT_DOWNLOADS); d := d + MAX_CONCURRENT_DOWNLOADS;
    SingleDashesConcat(d, CONTINUE); d := d + CONTINUE;
    SingleDashesConcat(d, MAX_CONNECTION_PER_SERVER); d := d + MAX_CONNECTION_PER_SERVER;
    SingleDashesConcat(d, MIN_SPLIT_SIZE); d := d + MIN_SPLIT_SIZE;
    SingleDashesConcat(d, SPLIT); d := d + SPLIT;
    SingleDashesConcat(d, MAX_OVERALL_DOWNLOAD_LIMIT); d := d + MAX_OVERALL_DOWNLOAD_LIMIT;
    SingleDashesConcat(d, MAX_DOWNLOAD_LIMIT); d := d + MAX_DOWNLOAD_LIMIT;
    SingleDashesConcat(d, MAX_OVERALL_UPLOAD_LIMIT); d := d + MAX_OVERALL_UPLOAD_LIMIT;
    SingleDashesConcat(d, MAX_UPLOAD_LIMIT); d := d + MAX_UPLOAD_LIMIT;
    SingleDashesConcat(d, DIR); d := d + DIR;
    SingleDashesConcat(d, FILE_ALLOCATION); d := d + FILE_ALLOCATION;
    assert d == DATA;
  }

  /** The file starts with `#`, not a blank, and its dashes all stand
      alone. */
  lemma ExampleData()
    requires BOUNDARY[0] == DASH && BOUNDARY[1] == DASH && |BOUNDARY| >= 2
    ensures |DATA| > 0 && DATA[0] != SP
    ensures Unambiguous(BOUNDARY, DATA[1..])
  {
    SingleDashesData();
    assert DATA[0] == RPC_USER[0];
    SingleDashesTail(DATA);
    NoDoubleStart(BOUNDARY, DATA[1..]);
  }

  /** The upload, closed by the boundary, two dashes and a line break,
      gives one part named `file` holding the data. */
  lemma ParseExample()
    ensures Run(Start(), FormBytes(BOUNDARY, HEADERS, DATA) + CRLF)
         == Ok(Some(FormData(BOUNDARY, [PART.(data := DATA)])))
  {
    ExampleWellFormed();
    ExampleHeaders();
    ParseSinglePart(BOUNDARY, HEADERS, DATA, CRLF);
  }

  /** What the example asks of the parsed form: `get_part("file")` finds
      the only part, with file name `aria2.conf`, content type
      `application/octet-stream`, and the data as sent. */
  lemma ExampleGetPart()
    ensures var form := FormData(BOUNDARY, [PART.(data := DATA)]);
      form.FirstNamed(FILE, 0)
      && form.parts[0].filename == Some(ARIA2_CONF)
      && form.parts[0].contentType == Some(OCTET_STREAM)
      && form.parts[0].data == DATA
  {
  }

  /** The example end to end: the upload is parsed and `get_part("file")`
      on the form returns the part with the data as sent. */
  method ExampleUpload() returns (part: Option<FormDataPart>)
    ensures part == Some(PART.(data := DATA))
  {
    var r := Parse(FormBytes(BOUNDARY, HEADERS, DATA) + CRLF);
    ParseExample();
    var form := r.value.value;
    assert form.parts[0].name == Some(FILE);
    part := form.GetPart(FILE);
  }
}
