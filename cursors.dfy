/**
 * What an arcpy SearchCursor over a raster attribute table delivers: the
 * rows it yielded, in order, and whether it raised (on creation or part-way
 * through). The rows yielded before a failure are kept, because every loop
 * over a cursor acts on each row as it arrives.
 */
module Cursors {
  datatype Cursor<R> = Cursor(rows: seq<R>, failed: bool)
}
