/** Writing a tydb file and reading it back. */
module TydbRoundTrip {
  import opened TydbFormat
  import TydbWriter
  import TydbReader
  import TydbTables

  /**
    Whatever is written is read back as the file could keep it, and exactly as it was
    whenever its text is non-null and free of NULs and its lengths are bytes.
   */
  method RoundTrip(f: File) returns (r: TydbReader.Result<File>, size: nat)
    ensures size == TydbTables.FileSize(f)
    ensures size < 0x8000_0000 ==> r == TydbReader.Ok(NormFile(f))
    ensures size < 0x8000_0000 ==> (r == TydbReader.Ok(f) <==> PlainFile(f))
  {
    var w := new TydbWriter.Writer();
    var data := w.Write(f);
    size := |data|;
    var reader := new TydbReader.Reader(data);
    r := reader.Read(NormFile(f));
    PlainFileKept(f);
  }
}
