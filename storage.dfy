/** Persistence as the crawlers see it: named text objects (S3 objects or
    local files) that can be read, written and deleted, where a read tells
    a missing object apart from one that could not be read, and where any
    operation on a given name may fail. */
module Storage {

  /** What reading one object gave. */
  datatype ReadResult =
    | Found(text: string)  // the object's text
    | Absent               // `NoSuchKey`, or `os.path.exists` is false
    | Failed               // any other error while reading

  /** The text read, or the empty text when there is none; a ledger that is
      missing, or that the S3 crawler fails to read, counts as empty. */
  function TextOrEmpty(r: ReadResult): string
  {
    if r.Found? then r.text else ""
  }

  /** A store of named texts. Which names fail to be read, written or
      deleted is fixed for the store's lifetime. */
  class Store {
    var objects: map<string, string>
    const readFaults: set<string>
    const writeFaults: set<string>
    const deleteFaults: set<string>

    constructor (objects0: map<string, string>, readFaults0: set<string>, writeFaults0: set<string>, deleteFaults0: set<string>)
      ensures objects == objects0
      ensures readFaults == readFaults0 && writeFaults == writeFaults0 && deleteFaults == deleteFaults0
    {
      objects := objects0;
      readFaults := readFaults0;
      writeFaults := writeFaults0;
      deleteFaults := deleteFaults0;
    }

    /** Reading an object: missing objects are reported as such; a present
        object reads back its text unless reading that name fails. */
    function Lookup(name: string): (r: ReadResult)
      reads this
      ensures r == Absent <==> name !in objects
      ensures r == Failed <==> name in objects && name in readFaults
      ensures r.Found? ==> name in objects && r.text == objects[name]
    {
      if name !in objects then Absent
      else if name in readFaults then Failed
      else Found(objects[name])
    }

    /** `put_object` / `open(name, "w")` and writing: replaces the text, or
        fails and changes nothing. */
    method Write(name: string, text: string) returns (ok: bool)
      modifies this
      ensures ok <==> name !in writeFaults
      ensures ok ==> objects == old(objects)[name := text]
      ensures !ok ==> objects == old(objects)
    {
      ok := name !in writeFaults;
      if ok {
        objects := objects[name := text];
      }
    }

    /** `delete_object` / `os.remove`: removes the object, or fails and
        changes nothing. */
    method Delete(name: string) returns (ok: bool)
      modifies this
      ensures ok <==> name !in deleteFaults
      ensures ok ==> objects == old(objects) - {name}
      ensures !ok ==> objects == old(objects)
    {
      ok := name !in deleteFaults;
      if ok {
        objects := objects - {name};
      }
    }
  }
}
