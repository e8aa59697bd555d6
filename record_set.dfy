/**
 * RecordSet: the records a reader loaded, in file order, together with where they came from
 * (path), whether the end of the file was reached (eof), the index of the first record in
 * the file (offset) and the format they were read with.
 */
module RecordSets {
  import opened Wrappers
  import opened Records
  import opened RecordFormats

  class RecordSet {
    var records: seq<Record>
    var path: Option<string>
    var eof: bool
    var offset: int
    var format: Option<RecordFormat>

    /** An empty set: no path or format yet, eof false and offset 0. */
    constructor ()
      ensures records == [] && path == None && !eof && offset == 0 && format == None
    {
      records := [];
      path := None;
      eof := false;
      offset := 0;
      format := None;
    }

    /** add: the record goes to the end; the other fields stay as they were. */
    method Add(r: Record)
      modifies this
      ensures records == old(records) + [r]
      ensures path == old(path) && eof == old(eof) && offset == old(offset) && format == old(format)
    {
      records := records + [r];
    }

    method SetPath(p: string)
      modifies this
      ensures path == Some(p)
      ensures records == old(records) && eof == old(eof) && offset == old(offset) && format == old(format)
    {
      path := Some(p);
    }

    method SetEof(e: bool)
      modifies this
      ensures eof == e
      ensures records == old(records) && path == old(path) && offset == old(offset) && format == old(format)
    {
      eof := e;
    }

    method SetOffset(o: int)
      modifies this
      ensures offset == o
      ensures records == old(records) && path == old(path) && eof == old(eof) && format == old(format)
    {
      offset := o;
    }

    method SetFormat(f: RecordFormat)
      modifies this
      ensures format == Some(f)
      ensures records == old(records) && path == old(path) && eof == old(eof) && offset == old(offset)
    {
      format := Some(f);
    }
  }
}
